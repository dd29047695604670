/** The predicates and the duplication rules of the key manager (src/keymgmt.c:49-245), on one key. */
module KeyManagement {
  import opened Bytes
  import opened KeySpec
  import opened PublicKey
  import opened Signature

  /** The parts of a key an operation is about. */
  datatype Selection = Selection(private: bool, public: bool, domain: bool)

  /** What the public key lets its getters read. */
  datatype Getters = Getters(publicKey: bool, group: bool)

  predicate HasPublicKey(key: Key, g: Getters) {
    key.pub.pkey.Some? && key.pub.spec.Some? && g.publicKey
  }

  predicate HasPrivateKey(key: Key) {
    key.keyId.Some? && key.keyId.value != ""
  }

  predicate HasDomainParameters(key: Key, g: Getters) {
    key.pub.spec.Some? && (key.pub.spec.value.family.EC? ==> key.pub.pkey.Some? && g.group)
  }

  predicate Has(key: Key, sel: Selection, g: Getters) {
    && key.pub.spec.Some?
    && (sel.public ==> HasPublicKey(key, g))
    && (sel.private ==> HasPrivateKey(key))
    && (sel.domain ==> HasDomainParameters(key, g))
  }

  /** What the libraries answer while a key is duplicated. */
  datatype DupEnv = DupEnv(g: Getters, upRef: bool, allocates: bool, copies: bool, parameters: Option<Pkey>)

  /** No duplicate, one more reference to the same key, or a new key. */
  datatype Plan = NoDup | Share | Build(key: Key)

  /** Only the spec and the policy of a key. */
  function Subset(key: Key): Key {
    Key(None, Pub([], None, key.pub.spec, [], None), key.fips)
  }

  function PublicCopy(key: Key): Key {
    Key(None, key.pub, key.fips)
  }

  /** Domain parameters rebuilt under the policy of the key. */
  function DomainCopy(key: Key, parameters: Pkey): Key {
    Subset(key).(pub := Pub([], Some(parameters.(fips := key.fips)), key.pub.spec, [], None))
  }

  function DupPlan(key: Key, sel: Selection, e: DupEnv): Plan {
    if !Has(key, sel, e.g) then NoDup
    else if sel.private then if sel.public && e.upRef then Share else NoDup
    else if sel.public then if e.allocates && e.copies then Build(PublicCopy(key)) else NoDup
    else if sel.domain && key.pub.spec.value.family.EC? then
      if e.parameters.Some? && e.allocates then Build(DomainCopy(key, e.parameters.value)) else NoDup
    else if e.allocates then Build(Subset(key))
    else NoDup
  }

  /** The public view of a key was parsed under the key's own policy. */
  predicate Tagged(key: Key) {
    key.pub.pkey.Some? ==> key.pub.pkey.value.fips == key.fips
  }

  /** The parts asked for are there, as libcrypto asks for them one by one. */
  predicate PartsThere(key: Key, sel: Selection, g: Getters) {
    && key.pub.spec.Some?
    && (sel.public ==> key.pub.pkey.Some? && g.publicKey)
    && (sel.private ==> key.keyId.Some? && |key.keyId.value| > 0)
    && (sel.domain && key.pub.spec.value.family.EC? ==> key.pub.pkey.Some? && g.group)
  }

  /**
   * Which duplicate there is: with the private half only the key itself, and only together with its public half; else
   * a new key with the whole public view, or with rebuilt domain parameters, or with the spec alone.
   */
  lemma DuplicatesExactly(key: Key, sel: Selection, e: DupEnv)
    ensures var plan := DupPlan(key, sel, e); var there := PartsThere(key, sel, e.g);
      && (plan.Share? <==> there && sel.private && sel.public && e.upRef)
      && (there && !sel.private && sel.public && e.allocates && e.copies ==>
            plan.Build? && plan.key.pub == key.pub)
      && (there && !sel.private && !sel.public && sel.domain && key.pub.spec.value.family.EC?
          && e.parameters.Some? && e.allocates ==>
            plan.Build? && plan.key.pub
              == EMPTY.(spec := key.pub.spec, pkey := Some(e.parameters.value.(fips := key.fips))))
      && (there && !sel.private && !sel.public && !(sel.domain && key.pub.spec.value.family.EC?) && e.allocates ==>
            plan.Build? && plan.key.pub == EMPTY.(spec := key.pub.spec))
      && (plan.Build? ==>
            && there && !sel.private && e.allocates && plan.key.keyId.None? && plan.key.fips == key.fips
            && (sel.public ==> e.copies)
            && (!sel.public && sel.domain && key.pub.spec.value.family.EC? ==> e.parameters.Some?))
  {
  }

  /**
   * A duplicate that can reach the private half is the same key object; a new key never can.  Policy,
   * spec and provenance carry over, and the duplicate has exactly the parts asked for that the original
   * has (reading from the same public key).
   */
  lemma DuplicatesAreFaithful(key: Key, sel: Selection, e: DupEnv)
    ensures DupPlan(key, sel, e).Share? ==> sel.private && sel.public && HasPrivateKey(key) && HasPublicKey(key, e.g)
    ensures DupPlan(key, sel, e).Build? ==> var k := DupPlan(key, sel, e).key;
      && !sel.private && !HasPrivateKey(k)
      && k.fips == key.fips && k.pub.spec == key.pub.spec
      && Has(k, sel, e.g)
      && (sel.public ==> k.pub == key.pub)
      && (Tagged(key) ==> Tagged(k))
  {
  }
}
