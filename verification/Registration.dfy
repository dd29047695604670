/**
 * Registration of the provider by the native addon (src/napi.c:245-339): a change of the process-wide
 * default property query that is rolled back when activation fails, run once per process.
 */
module Registration {
  import opened Bytes
  import opened PropertyQuery
  import opened PropertyScanner

  datatype Error =
    | NO_GETTER
    | GETTER_FAILED
    | RESERVED_PROPERTY_IN_USE
    | OUT_OF_MEMORY
    | ADD_BUILTIN_FAILED
    | SET_REJECTED
    | LOAD_FAILED
    | LOAD_AND_RESTORE_FAILED

  /** What each libcrypto call will answer if it is made. */
  datatype Outcomes = Outcomes(
    hasGetter: bool, getterWorks: bool, granted: bool, addWorks: bool, setWorks: bool, loadWorks: bool,
    restoreWorks: bool)

  /** The default query registration aims for. */
  function Merged(query: string): string {
    if MarkerState(query).GUARDED? then query else Appended(query)
  }

  // ---------------------------------------------------------------- what the merged query means

  function CountGuards(clauses: seq<string>): nat {
    if clauses == [] then 0
    else (if ClauseMarker(clauses[0]).GUARDED? then 1 else 0) + CountGuards(clauses[1..])
  }

  ghost predicate NoConflict(clauses: seq<string>) {
    forall i :: 0 <= i < |clauses| ==> !ClauseMarker(clauses[i]).CONFLICT?
  }

  /** The folded state, clause by clause: one guard and nothing in conflict with it. */
  lemma {:induction false} FoldCounts(clauses: seq<string>)
    ensures FoldMarkers(ABSENT, clauses).GUARDED? <==> NoConflict(clauses) && CountGuards(clauses) == 1
    ensures FoldMarkers(ABSENT, clauses).ABSENT? <==> NoConflict(clauses) && CountGuards(clauses) == 0
  {
    hide ClauseMarker;
    if clauses != [] {
      var rest := clauses[1..];
      FoldCounts(rest);
      FoldFrom(Combine(ABSENT, ClauseMarker(clauses[0])), rest);
      assert forall i :: 1 <= i < |clauses| ==> clauses[i] == rest[i - 1];
      assert NoConflict(clauses) <==> !ClauseMarker(clauses[0]).CONFLICT? && NoConflict(rest);
    }
  }

  /**
   * Of a query whose quotes are closed and that is not in conflict, the merged query has exactly one
   * guard clause, no conflicting clause, and asks for FIPS exactly if the original does.
   */
  lemma MergedIsGuardedOnce(query: string)
    requires Closed(query) && !MarkerState(query).CONFLICT?
    ensures CountGuards(Clauses(Merged(query))) == 1 && NoConflict(Clauses(Merged(query)))
    ensures RequestsFips(Merged(query)) <==> RequestsFips(query)
  {
    hide ClauseMarker, Split, RequestsFips, Appended;
    if !MarkerState(query).GUARDED? {
      GuardTakesHold(query);
      ClosedKeepsFips(query);
    }
    FoldCounts(Clauses(Merged(query)));
  }

  /** Merging twice is merging once, exactly when the query has the guard or leaves no quote open. */
  lemma MergeIsIdempotent(query: string)
    requires !MarkerState(query).CONFLICT?
    ensures Merged(Merged(query)) == Merged(query) <==> MarkerState(query).GUARDED? || Closed(query)
  {
    hide MarkerState;
    if !MarkerState(query).GUARDED? {
      GuardTakesHold(query);
      assert |Appended(Appended(query))| > |Appended(query)|;
    }
  }

  // ---------------------------------------------------------------- the transaction

  /** The first call that goes wrong, in the order the calls are made. */
  function Failure(query: string, available: bool, o: Outcomes): Option<Error> {
    if !o.hasGetter then Some(NO_GETTER)
    else if !o.getterWorks then Some(GETTER_FAILED)
    else if MarkerState(query).CONFLICT? then Some(RESERVED_PROPERTY_IN_USE)
    else if MarkerState(query).ABSENT? && (!o.granted || |Appended(query)| + 1 > SIZE_MAX) then Some(OUT_OF_MEMORY)
    else if !available && !o.addWorks then Some(ADD_BUILTIN_FAILED)
    else if MarkerState(query).ABSENT? && !o.setWorks then Some(SET_REJECTED)
    else if !o.loadWorks then
      Some(if MarkerState(query).ABSENT? && !o.restoreWorks then LOAD_AND_RESTORE_FAILED else LOAD_FAILED)
    else None
  }

  /** The steps of a registration in their order: what makes each of them go well. */
  predicate Works(query: string, available: bool, o: Outcomes, k: nat) {
    var guarded := MarkerState(query).GUARDED?;
    match k
    case 0 => o.hasGetter
    case 1 => o.getterWorks
    case 2 => MarkerState(query) != CONFLICT
    case 3 => guarded || (o.granted && |Appended(query)| + 1 <= SIZE_MAX)
    case 4 => available || o.addWorks
    case 5 => guarded || o.setWorks
    case _ => o.loadWorks
  }

  /** What the failure of a step is called. */
  function NameOfFailure(k: nat): Error {
    match k
    case 0 => NO_GETTER
    case 1 => GETTER_FAILED
    case 2 => RESERVED_PROPERTY_IN_USE
    case 3 => OUT_OF_MEMORY
    case 4 => ADD_BUILTIN_FAILED
    case 5 => SET_REJECTED
    case _ => LOAD_FAILED
  }

  /**
   * The outcome is the failure of the first step that does not go well; the last one has its own if the query was
   * changed and cannot be put back.
   */
  lemma FailureIsFirst(query: string, available: bool, o: Outcomes, k: nat)
    requires k < 7 && !Works(query, available, o, k) && forall j :: 0 <= j < k ==> Works(query, available, o, j)
    ensures Failure(query, available, o) == Some(
      if k == 6 && !MarkerState(query).GUARDED? && !o.restoreWorks then LOAD_AND_RESTORE_FAILED else NameOfFailure(k))
  {
    hide MarkerState, Appended;
    assert k > 0 ==> Works(query, available, o, 0);
    assert k > 1 ==> Works(query, available, o, 1);
    assert k > 2 ==> Works(query, available, o, 2);
    assert k > 3 ==> Works(query, available, o, 3);
    assert k > 4 ==> Works(query, available, o, 4);
    assert k > 5 ==> Works(query, available, o, 5);
  }

  /** Without such a step there is no failure. */
  lemma NoFailureOtherwise(query: string, available: bool, o: Outcomes)
    requires forall k :: 0 <= k < 7 ==> Works(query, available, o, k)
    ensures Failure(query, available, o).None?
  {
    hide MarkerState, Appended;
    assert Works(query, available, o, 0) && Works(query, available, o, 1) && Works(query, available, o, 2);
    assert Works(query, available, o, 3) && Works(query, available, o, 4) && Works(query, available, o, 5);
    assert Works(query, available, o, 6);
  }

  /** The errors behind the point where the provider is made known to libcrypto, which does not activate it. */
  predicate ReachedProvider(error: Option<Error>) {
    error == Some(SET_REJECTED) || error == Some(LOAD_FAILED) || error == Some(LOAD_AND_RESTORE_FAILED)
  }

  class Process {
    /** libcrypto's default property query, whether the provider is active, and whether it was made known here. */
    var properties: string
    var available: bool
    var added: bool
    /** The statics of the addon. */
    var retained: bool
    var error: Option<Error>
    var succeeded: bool
    var once: bool

    ghost predicate Valid()
      reads this
    {
      && |properties| < SIZE_MAX
      && (!once ==> error.None? && !retained && !succeeded && !added)
      && (once ==> (succeeded <==> error.None?) && (succeeded ==> retained && available))
    }

    /** A C string that fits in memory. */
    constructor (properties: string, available: bool)
      requires |properties| < SIZE_MAX
      ensures Valid() && !once && this.properties == properties && this.available == available
    {
      this.properties, this.available := properties, available;
      added, retained, error, succeeded, once := false, false, None, false, false;
    }

    /**
     * Registration either succeeds with the merged query, or leaves the query exactly as it was, or
     * reports that the query could not be put back.  A provider that is active already is not added again, and
     * one that is added becomes active only when it is loaded.
     */
    method Register(o: Outcomes)
      requires Valid() && !once
      modifies `properties, `available, `added, `retained, `error, `succeeded
      ensures |properties| < SIZE_MAX
      ensures error == Failure(old(properties), old(available), o)
      ensures succeeded == retained == error.None?
      ensures properties ==
        if succeeded then Merged(old(properties))
        else if error == Some(LOAD_AND_RESTORE_FAILED) then Appended(old(properties))
        else old(properties)
      ensures available <==> old(available) || succeeded
      ensures added <==> !old(available) && (succeeded || ReachedProvider(error))
    {
      hide MarkerState;
      if !o.hasGetter {
        error := Some(NO_GETTER);
        return;
      }
      if !o.getterWorks {
        error := Some(GETTER_FAILED);
        return;
      }
      var existing := properties;
      var marker := ComputeMarkerState(existing);
      if marker.CONFLICT? {
        error := Some(RESERVED_PROPERTY_IN_USE);
        return;
      }
      var target := existing;
      var changed := false;
      if !marker.GUARDED? {
        var merged := AppendDefaultProperty(existing, o.granted);
        if merged == null {
          error := Some(OUT_OF_MEMORY);
          return;
        }
        target := merged[..merged.Length - 1];
        changed := true;
      }
      assert target == Merged(existing);
      if !available {
        if !o.addWorks {
          error := Some(ADD_BUILTIN_FAILED);
          return;
        }
        added := true;
      }
      if changed {
        if !o.setWorks {
          error := Some(SET_REJECTED);
          return;
        }
        properties := target;
      }
      retained := o.loadWorks;
      if !retained {
        if changed {
          if !o.restoreWorks {
            error := Some(LOAD_AND_RESTORE_FAILED);
            return;
          }
          properties := existing;
        }
        error := Some(LOAD_FAILED);
        return;
      }
      available := true;
      succeeded := true;
    }

    /**
     * The entry point of the addon: `CRYPTO_THREAD_run_once`, then the recorded result.  Later calls
     * change nothing, whatever libcrypto would answer by then, and report what the first one did.
     */
    method RegisterModule(onceWorks: bool, o: Outcomes) returns (registered: bool)
      requires Valid()
      modifies this
      ensures Valid() && once == (old(once) || onceWorks)
      ensures registered == (onceWorks && succeeded)
      ensures old(once) || !onceWorks ==> unchanged(this)
      ensures !old(once) && onceWorks ==> error == Failure(old(properties), old(available), o)
      ensures properties ==
        if old(once) || !onceWorks then old(properties)
        else if error.None? then Merged(old(properties))
        else if error == Some(LOAD_AND_RESTORE_FAILED) then Appended(old(properties))
        else old(properties)
    {
      hide MarkerState, Merged, Failure, Appended;
      if !onceWorks {
        return false;
      }
      if !once {
        Register(o);
        once := true;
      }
      return succeeded;
    }
  }
}
