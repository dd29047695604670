/**
 * How one KMS client is configured and which key the client cache files it under
 * (src/kms_aws.cc, `client_for`, `PrecedenceCredentialsProviderChain`, `is_china_region`).
 */
module ClientKey {
  import opened Bytes

  /** What the AWS SDK reports about the process environment and the shared config files. */
  datatype AwsEnv = AwsEnv(
    ambientProfile: string,
    defaultProfileVariable: string,
    profileVariable: string,
    defaultRegionVariable: string,
    regionVariable: string,
    configProfiles: set<string>,
    credentialProfiles: set<string>,
    profileRegion: string -> string,
    endpointSource: string -> string,
    configurationRegion: string -> string,
    ambientCredentialProfile: string -> string)

  /** Provider settings, the URI, and whether the operation requires FIPS. */
  datatype Inputs = Inputs(
    providerRegion: Option<string>,
    providerProfile: Option<string>,
    providerEndpoint: Option<string>,
    uriRegion: Option<string>,
    uriProfile: Option<string>,
    uriEndpoint: Option<string>,
    fips: bool)

  datatype ClientKey = ClientKey(
    region: string,
    profile: string,
    endpoint: string,
    ambientProfile: string,
    providerProfile: string,
    fips: bool,
    uriProfile: bool)

  datatype Resolution =
    | Resolved(key: ClientKey)
    | EndpointUnderFips
    | ChinaRegionUnderFips

  datatype Credentials =
    | Profile(ambient: string, profile: string)     // ProfileCredentialsProvider
    | DefaultChain(ambient: string)                 // DefaultAWSCredentialsProviderChain

  /** Everything a freshly constructed client is made from. */
  datatype ClientPlan = ClientPlan(
    configuration: string,
    region: string,
    endpointOverride: Option<string>,
    useFips: bool,
    credentials: seq<Credentials>)

  predicate ProfileExists(env: AwsEnv, profile: string) {
    profile in env.configProfiles || profile in env.credentialProfiles
  }

  predicate AmbientSelected(env: AwsEnv) {
    env.defaultProfileVariable != "" || env.profileVariable != "" || ProfileExists(env, env.ambientProfile)
  }

  predicate IsChinaRegion(region: string) {
    |region| > 3 && region[0] in "cC" && region[1] in "nN" && region[2] == '-'
  }

  function OrEmpty(value: Option<string>): string {
    match value
    case None => ""
    case Some(v) => v
  }

  /** The first setting that is present and not empty. */
  function FirstSet(settings: seq<string>): string {
    if settings == [] then "" else if settings[0] != "" then settings[0] else FirstSet(settings[1..])
  }

  function SelectedProfile(env: AwsEnv, i: Inputs): string {
    match i.uriProfile
    case Some(profile) => profile
    case None =>
      if AmbientSelected(env) || i.providerProfile.None? then env.ambientProfile else i.providerProfile.value
  }

  function RegionSettings(env: AwsEnv, i: Inputs, profile: string): seq<string> {
    [OrEmpty(i.uriRegion), env.defaultRegionVariable, env.regionVariable,
     if profile in env.configProfiles then env.profileRegion(profile) else "",
     OrEmpty(i.providerRegion), env.configurationRegion(profile)]
  }

  function EndpointSettings(env: AwsEnv, i: Inputs, profile: string): seq<string> {
    [OrEmpty(i.uriEndpoint), env.endpointSource(profile), OrEmpty(i.providerEndpoint)]
  }

  function Resolve(env: AwsEnv, i: Inputs): Resolution {
    var profile := SelectedProfile(env, i);
    var region := FirstSet(RegionSettings(env, i, profile));
    var endpoint := FirstSet(EndpointSettings(env, i, profile));
    if i.fips && endpoint != "" then EndpointUnderFips
    else if i.fips && IsChinaRegion(region) then ChinaRegionUnderFips
    else Resolved(ClientKey(region, profile, endpoint, env.ambientProfile, OrEmpty(i.providerProfile), i.fips,
                            i.uriProfile.Some?))
  }

  /** The settings are resolved by overwriting locals, one source after the other. */
  method ResolveSettings(env: AwsEnv, i: Inputs) returns (r: Resolution)
    ensures r == Resolve(env, i)
  {
    var profile := "";
    if i.uriProfile.Some? {
      profile := i.uriProfile.value;
    } else if AmbientSelected(env) {
      profile := env.ambientProfile;
    } else if i.providerProfile.Some? {
      profile := i.providerProfile.value;
    } else {
      profile := env.ambientProfile;
    }
    assert profile == SelectedProfile(env, i);

    var region := "";
    if i.uriRegion.Some? { region := i.uriRegion.value; }
    if region == "" {
      region := env.defaultRegionVariable;
      if region == "" { region := env.regionVariable; }
    }
    if region == "" && profile in env.configProfiles { region := env.profileRegion(profile); }
    if region == "" && i.providerRegion.Some? { region := i.providerRegion.value; }
    if region == "" { region := env.configurationRegion(profile); }

    assert region == FirstSet(RegionSettings(env, i, profile)) by {
      FirstOfSix(OrEmpty(i.uriRegion), env.defaultRegionVariable, env.regionVariable,
                 if profile in env.configProfiles then env.profileRegion(profile) else "",
                 OrEmpty(i.providerRegion), env.configurationRegion(profile));
    }

    var endpoint := "";
    if i.uriEndpoint.Some? { endpoint := i.uriEndpoint.value; }
    if endpoint == "" { endpoint := env.endpointSource(profile); }
    if endpoint == "" && i.providerEndpoint.Some? { endpoint := i.providerEndpoint.value; }
    assert endpoint == FirstSet(EndpointSettings(env, i, profile)) by {
      FirstOfThree(OrEmpty(i.uriEndpoint), env.endpointSource(profile), OrEmpty(i.providerEndpoint));
    }

    if i.fips && endpoint != "" { return EndpointUnderFips; }
    if i.fips && IsChinaRegion(region) { return ChinaRegionUnderFips; }
    return Resolved(ClientKey(region, profile, endpoint, env.ambientProfile, OrEmpty(i.providerProfile), i.fips,
                              i.uriProfile.Some?));
  }

  lemma FirstOfThree(a: string, b: string, c: string)
    ensures FirstSet([a, b, c]) == if a != "" then a else if b != "" then b else c
  {
    assert FirstSet([c]) == c;
    assert [b, c][1..] == [c] && [a, b, c][1..] == [b, c];
    assert FirstSet([b, c]) == if b != "" then b else c;
  }

  lemma FirstOfSix(a: string, b: string, c: string, d: string, e: string, f: string)
    ensures FirstSet([a, b, c, d, e, f]) == if a != "" then a else if b != "" then b else if c != "" then c
      else if d != "" then d else if e != "" then e else f
  {
    FirstOfThree(d, e, f);
    assert [c, d, e, f][1..] == [d, e, f] && [b, c, d, e, f][1..] == [c, d, e, f];
    assert [a, b, c, d, e, f][1..] == [b, c, d, e, f];
    assert FirstSet([c, d, e, f]) == if c != "" then c else FirstSet([d, e, f]);
    assert FirstSet([b, c, d, e, f]) == if b != "" then b else FirstSet([c, d, e, f]);
  }

  // ---------------------------------------------------------------- the order of the sources

  /** A setting counts if it is there and not empty. */
  predicate IsSet(setting: Option<string>) {
    setting.Some? && setting.value != ""
  }

  /** The profile of the URI; else the ambient one if it was chosen or exists; else the provider's, if any. */
  predicate ProfileIs(env: AwsEnv, i: Inputs, profile: string) {
    var chosen := env.defaultProfileVariable != "" || env.profileVariable != ""
      || env.ambientProfile in env.configProfiles || env.ambientProfile in env.credentialProfiles;
    && (i.uriProfile.Some? ==> profile == i.uriProfile.value)
    && (i.uriProfile.None? && chosen ==> profile == env.ambientProfile)
    && (i.uriProfile.None? && !chosen && i.providerProfile.Some? ==> profile == i.providerProfile.value)
    && (i.uriProfile.None? && !chosen && i.providerProfile.None? ==> profile == env.ambientProfile)
  }

  /** URI, AWS_DEFAULT_REGION, AWS_REGION, the section of the profile, the provider, and last the SDK. */
  predicate RegionIs(env: AwsEnv, i: Inputs, profile: string, region: string) {
    var section := if profile in env.configProfiles then env.profileRegion(profile) else "";
    if IsSet(i.uriRegion) then region == i.uriRegion.value
    else if env.defaultRegionVariable != "" then region == env.defaultRegionVariable
    else if env.regionVariable != "" then region == env.regionVariable
    else if section != "" then region == section
    else if IsSet(i.providerRegion) then region == i.providerRegion.value
    else region == env.configurationRegion(profile)
  }

  /** URI, what the SDK finds in the environment and the profile, the provider; or none. */
  predicate EndpointIs(env: AwsEnv, i: Inputs, profile: string, endpoint: string) {
    if IsSet(i.uriEndpoint) then endpoint == i.uriEndpoint.value
    else if env.endpointSource(profile) != "" then endpoint == env.endpointSource(profile)
    else if IsSet(i.providerEndpoint) then endpoint == i.providerEndpoint.value
    else endpoint == ""
  }

  /** "cn-" in either case, and more. */
  ghost predicate InChina(region: string) {
    exists rest :: rest != "" &&
      (region == "cn-" + rest || region == "Cn-" + rest || region == "cN-" + rest || region == "CN-" + rest)
  }

  lemma ChinaExactly(region: string)
    ensures IsChinaRegion(region) <==> InChina(region)
  {
    if IsChinaRegion(region) {
      var rest := region[3..];
      assert region == region[..3] + rest && rest != "";
      assert region[..3] == [region[0], region[1], '-'];
    }
  }

  /** These settings are the first ones, and the outcome is made of them. */
  ghost predicate SettledBy(env: AwsEnv, i: Inputs, profile: string, region: string, endpoint: string) {
    && ProfileIs(env, i, profile) && RegionIs(env, i, profile, region) && EndpointIs(env, i, profile, endpoint)
    && match Resolve(env, i)
       case EndpointUnderFips => i.fips && endpoint != ""
       case ChinaRegionUnderFips => i.fips && endpoint == "" && InChina(region)
       case Resolved(key) =>
         && (i.fips ==> endpoint == "" && !InChina(region))
         && key == ClientKey(region, profile, endpoint, env.ambientProfile,
                             if i.providerProfile.Some? then i.providerProfile.value else "", i.fips,
                             i.uriProfile.Some?)
  }

  /**
   * Whatever the sources say, the outcome has the profile, the region and the endpoint of the first source in
   * their order; under FIPS any endpoint is refused, and then any China region.
   */
  lemma SettingsInOrder(env: AwsEnv, i: Inputs)
    ensures exists profile, region, endpoint :: SettledBy(env, i, profile, region, endpoint)
  {
    var profile := SelectedProfile(env, i);
    var region, endpoint := FirstSet(RegionSettings(env, i, profile)), FirstSet(EndpointSettings(env, i, profile));
    ChinaExactly(region);
    FirstOfSix(OrEmpty(i.uriRegion), env.defaultRegionVariable, env.regionVariable,
               if profile in env.configProfiles then env.profileRegion(profile) else "",
               OrEmpty(i.providerRegion), env.configurationRegion(profile));
    FirstOfThree(OrEmpty(i.uriEndpoint), env.endpointSource(profile), OrEmpty(i.providerEndpoint));
    hide FirstSet, IsChinaRegion;
    assert SettledBy(env, i, profile, region, endpoint);
  }

  // ---------------------------------------------------------------- the client itself

  /** The URI profile first, then the ordinary chain, then the provider profile unless it is a repeat. */
  function CredentialChain(env: AwsEnv, i: Inputs): seq<Credentials> {
    (if i.uriProfile.Some? then [Profile(env.ambientProfile, i.uriProfile.value)] else [])
    + [DefaultChain(env.ambientProfile)]
    + (if FallbackAdded(env, i) then [Profile(env.ambientProfile, i.providerProfile.value)] else [])
  }

  predicate FallbackAdded(env: AwsEnv, i: Inputs) {
    && i.providerProfile.Some?
    && i.uriProfile != i.providerProfile
    && env.ambientCredentialProfile(env.ambientProfile) != i.providerProfile.value
  }

  function Plan(env: AwsEnv, i: Inputs): ClientPlan
    requires Resolve(env, i).Resolved?
  {
    var key := Resolve(env, i).key;
    ClientPlan(key.profile, key.region, if key.endpoint == "" then None else Some(key.endpoint), key.fips,
               CredentialChain(env, i))
  }

  /**
   * Credentials are tried in this order: the URI profile, if there is one; the ordinary chain of the SDK; last the
   * provider profile, unless it is the URI's or the one the ordinary chain uses.  The rest of the client is the key.
   */
  lemma CredentialsInOrder(env: AwsEnv, i: Inputs)
    requires Resolve(env, i).Resolved?
    ensures var chain, ambient := Plan(env, i).credentials, env.ambientProfile;
      var n := if i.uriProfile.Some? then 1 else 0;
      && (i.uriProfile.Some? ==> |chain| > 0 && chain[0] == Profile(ambient, i.uriProfile.value))
      && |chain| > n && chain[n] == DefaultChain(ambient)
      && (if i.providerProfile.None? || i.uriProfile == i.providerProfile
             || env.ambientCredentialProfile(ambient) == i.providerProfile.value then |chain| == n + 1
          else |chain| == n + 2 && chain[n + 1] == Profile(ambient, i.providerProfile.value))
    ensures var plan, key := Plan(env, i), Resolve(env, i).key;
      && plan.configuration == key.profile && plan.region == key.region && plan.useFips == i.fips
      && (if key.endpoint == "" then plan.endpointOverride.None? else plan.endpointOverride == Some(key.endpoint))
  {
  }

  /** NULL and the empty provider profile share a key; every other provider profile has its own. */
  predicate SamePresence(a: Inputs, b: Inputs) {
    a.providerProfile.None? <==> b.providerProfile.None?
  }

  /**
   * Cache-key completeness, exactly: of two calls with one key, both would build the same client,
   * unless one has no provider profile, the other has an empty one, and the empty one would be tried
   * as a fallback of its own.
   */
  lemma SameKeySamePlan(env: AwsEnv, a: Inputs, b: Inputs)
    requires Resolve(env, a).Resolved? && Resolve(env, b).Resolved?
    requires Resolve(env, a).key == Resolve(env, b).key
    ensures Plan(env, a) == Plan(env, b) <==>
      SamePresence(a, b) || a.uriProfile == Some("") || env.ambientCredentialProfile(env.ambientProfile) == ""
  {
    assert a.uriProfile == b.uriProfile by {
      assert a.uriProfile.Some? ==> SelectedProfile(env, a) == a.uriProfile.value;
      assert b.uriProfile.Some? ==> SelectedProfile(env, b) == b.uriProfile.value;
    }
    var prefix := (if a.uriProfile.Some? then [Profile(env.ambientProfile, a.uriProfile.value)] else [])
      + [DefaultChain(env.ambientProfile)];
    assert CredentialChain(env, a) == prefix || CredentialChain(env, a) == prefix + CredentialChain(env, a)[|prefix|..];
    if FallbackAdded(env, a) != FallbackAdded(env, b) {
      assert |CredentialChain(env, a)| != |CredentialChain(env, b)|;
    }
  }

  /** The precondition the provider meets in practice: no profile at all, or a real one. */
  predicate ProfileNullOrNamed(i: Inputs) {
    i.providerProfile != Some("")
  }

  lemma HitEqualsFreshBuild(env: AwsEnv, a: Inputs, b: Inputs)
    requires Resolve(env, a).Resolved? && Resolve(env, b).Resolved?
    requires Resolve(env, a).key == Resolve(env, b).key
    requires ProfileNullOrNamed(a) && ProfileNullOrNamed(b)
    ensures Plan(env, a) == Plan(env, b)
  {
    SameKeySamePlan(env, a, b);
  }

  /** A concrete pair that shares a cache entry and would not build the same credential chain. */
  lemma EmptyProfileCollides(env: AwsEnv)
    requires env.ambientCredentialProfile(env.ambientProfile) == "default" && AmbientSelected(env)
    ensures exists a: Inputs, b: Inputs :: Resolve(env, a) == Resolve(env, b) && Resolve(env, a).Resolved?
              && Resolve(env, b).Resolved? && Plan(env, a) != Plan(env, b)
  {
    var a := Inputs(None, None, None, None, None, None, false);
    var b := a.(providerProfile := Some(""));
    assert Resolve(env, a) == Resolve(env, b);
    SameKeySamePlan(env, a, b);
  }

  predicate FipsRouted(key: ClientKey) {
    key.fips ==> key.endpoint == "" && !IsChinaRegion(key.region)
  }

  /**
   * Resolution refuses exactly the FIPS requests that would be overridden to some endpoint or go to
   * a China region, so a key that carries the FIPS flag never does.
   */
  lemma FipsKeysAreRouted(env: AwsEnv, i: Inputs)
    ensures Resolve(env, i).Resolved? ==> FipsRouted(Resolve(env, i).key) && Resolve(env, i).key.fips == i.fips
    ensures forall profile, region :: ProfileIs(env, i, profile) && RegionIs(env, i, profile, region) ==>
      (!Resolve(env, i).Resolved? <==>
        i.fips && (IsSet(i.uriEndpoint) || env.endpointSource(profile) != "" || IsSet(i.providerEndpoint)
                   || InChina(region)))
  {
    SettingsInOrder(env, i);
    hide Resolve, InChina;
    var profile, region, endpoint :| SettledBy(env, i, profile, region, endpoint);
    ChinaExactly(region);
  }
}
