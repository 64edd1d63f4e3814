/** The speaker slice of the Redux store: the search result list, its
    end-of-results flag, the search parameters and the speaker being viewed,
    with the three synchronous actions and the reducer that applies them. */
module SpeakerStore {
  import opened JsValue
  import opened Dedup

  type Positive = n: int | n > 0 witness 1

  /** DEFAULT_SPEAKER_LIMIT: the page size, defined in a constants file that
      is not part of this model; all that is used is that it is positive. */
  const DefaultSpeakerLimit: Positive

  /** IDENTITIES[0].label, from the same constants file. */
  const FirstIdentityLabel: string

  datatype SpeakerState = SpeakerState(
    results: seq<Speaker>,
    endOfResults: bool,
    searchParams: Record,
    selectedLocation: Value,
    selectedIdentity: Value,
    speaker: Value)

  /** The actions built by `updateSpeakers`, `updateSpeaker` and
      `updateSearchParams`; `Other` is any action of another type. */
  datatype SpeakerAction =
    | UpdateSpeakers(batch: seq<Speaker>, append: Value)
    | UpdateSpeaker(result: Value)
    | UpdateSearchParams(params: Record)
    | Other(kind: string)

  /** INITIAL_STATE. */
  function InitialState(): (s: SpeakerState)
    ensures s.results == [] && !s.endOfResults && s.speaker == Null
    ensures s.searchParams.Keys == {"offset", "limit"}
    ensures s.searchParams["offset"] == Num(0) && s.searchParams["limit"] == Num(DefaultSpeakerLimit)
    ensures s.selectedLocation == Null && s.selectedIdentity == Str(FirstIdentityLabel)
  {
    SpeakerState(
      [], false,
      map["offset" := Num(0), "limit" := Num(DefaultSpeakerLimit)],
      Null, Str(FirstIdentityLabel), Null)
  }

  /** Whether a batch of this many speakers marks the last page. */
  predicate LastPage(batchLength: nat) {
    batchLength < DefaultSpeakerLimit
  }

  /** The reducer. No action writes the two selections; each action
      writes only its own part of the slice; a speaker batch always leaves a
      list without duplicate ids and sets the flag from the batch length. */
  function Reduce(s: SpeakerState, a: SpeakerAction): (r: SpeakerState)
    ensures r.selectedLocation == s.selectedLocation && r.selectedIdentity == s.selectedIdentity
    ensures a.UpdateSpeakers? ==> UniqueIds(r.results) && (r.endOfResults <==> |a.batch| < DefaultSpeakerLimit)
    ensures !a.UpdateSpeakers? ==> r.results == s.results && r.endOfResults == s.endOfResults
    ensures !a.UpdateSearchParams? ==> r.searchParams == s.searchParams
    ensures !a.UpdateSpeaker? ==> r.speaker == s.speaker
  {
    match a
    case UpdateSpeakers(batch, append) =>
      s.(results := if Truthy(append) then UniqById(s.results + batch) else UniqById(batch),
         endOfResults := LastPage(|batch|))
    case UpdateSpeaker(result) => s.(speaker := result)
    case UpdateSearchParams(params) => s.(searchParams := Spread(s.searchParams, params))
    case Other(_) => s
  }

  /** Applying a sequence of actions in dispatch order. The selections are
      never written; the search parameters change only through
      `updateSearchParams`. */
  function Run(s: SpeakerState, actions: seq<SpeakerAction>): (r: SpeakerState)
    ensures r.selectedLocation == s.selectedLocation && r.selectedIdentity == s.selectedIdentity
    ensures (forall i :: 0 <= i < |actions| ==> !actions[i].UpdateSearchParams?) ==> r.searchParams == s.searchParams
    decreases |actions|
  {
    if actions == [] then s else Run(Reduce(s, actions[0]), actions[1..])
  }

  /** The slice invariant: the result list never holds two speakers with
      the same id. */
  predicate Valid(s: SpeakerState) {
    UniqueIds(s.results)
  }

  lemma InitialStateValid()
    ensures Valid(InitialState())
  {
  }

  /** Every action keeps the result list free of duplicate ids, in append
      and in replace mode alike, whatever the previous state. */
  lemma ReducePreservesValid(s: SpeakerState, a: SpeakerAction)
    requires Valid(s)
    ensures Valid(Reduce(s, a))
  {
  }

  /** After any sequence of dispatches from the initial state the list is
      free of duplicate ids. */
  lemma {:induction false} RunPreservesValid(s: SpeakerState, actions: seq<SpeakerAction>)
    requires Valid(s)
    ensures Valid(Run(s, actions))
    decreases |actions|
  {
    if actions != [] {
      ReducePreservesValid(s, actions[0]);
      RunPreservesValid(Reduce(s, actions[0]), actions[1..]);
    }
  }

  lemma ReachableStatesValid(actions: seq<SpeakerAction>)
    ensures Valid(Run(InitialState(), actions))
  {
    InitialStateValid();
    RunPreservesValid(InitialState(), actions);
  }

  /** Append mode on a valid state: every existing entry stays where it was
      with its own fields; after it come, in batch order, the batch entries
      whose ids were not in the list (first of each id); no batch entry
      whose id was already listed survives. */
  lemma AppendKeepsExistingEntries(s: SpeakerState, batch: seq<Speaker>, append: Value)
    requires Valid(s) && Truthy(append)
    ensures Reduce(s, UpdateSpeakers(batch, append)).results
         == s.results + FirstOccurrences(batch, Ids(s.results))
    ensures Ids(Reduce(s, UpdateSpeakers(batch, append)).results) == Ids(s.results) + Ids(batch)
    ensures |Reduce(s, UpdateSpeakers(batch, append)).results| <= |s.results| + |batch|
  {
    AppendKeepsEarlier(s.results, batch);
    UniqByIdIdempotent(s.results);
    UniqFromIsFirstOccurrences(batch, Ids(s.results));
    IdsConcat(s.results, batch);
  }

  /** Append mode from any state: the new list starts with the old list
      de-duplicated, and is never longer than old plus batch. */
  lemma AppendExtendsDeduplicatedList(s: SpeakerState, batch: seq<Speaker>, append: Value)
    requires Truthy(append)
    ensures var r := Reduce(s, UpdateSpeakers(batch, append)).results;
      |UniqById(s.results)| <= |r| <= |s.results| + |batch| &&
      r[..|UniqById(s.results)|] == UniqById(s.results)
  {
    AppendKeepsEarlier(s.results, batch);
  }

  /** Replace mode discards the previous list: the result depends on the
      batch alone, keeping the first entry of each id in batch order. */
  lemma ReplaceDiscardsPrevious(s: SpeakerState, batch: seq<Speaker>, append: Value)
    requires !Truthy(append)
    ensures Reduce(s, UpdateSpeakers(batch, append)).results == FirstOccurrences(batch, {})
    ensures Ids(Reduce(s, UpdateSpeakers(batch, append)).results) == Ids(batch)
  {
    UniqFromIsFirstOccurrences(batch, {});
  }

  /** `updateSpeakers([], false)` empties the list and marks the end of the
      results, from any state. */
  lemma EmptyReplaceEndsResults(s: SpeakerState)
    ensures Reduce(s, UpdateSpeakers([], Bool(false))).results == []
    ensures Reduce(s, UpdateSpeakers([], Bool(false))).endOfResults
  {
  }

  /** The end-of-results flag depends on the new batch's length only: not
      on the previous list, the previous flag, or the mode. */
  lemma EndOfResultsFromBatchOnly(s1: SpeakerState, s2: SpeakerState, batch: seq<Speaker>, a1: Value, a2: Value)
    ensures Reduce(s1, UpdateSpeakers(batch, a1)).endOfResults
         == Reduce(s2, UpdateSpeakers(batch, a2)).endOfResults
    ensures Reduce(s1, UpdateSpeakers(batch, a1)).endOfResults <==> |batch| < DefaultSpeakerLimit
  {
  }

  /** `updateSpeakers` touches only the list and the flag. */
  lemma UpdateSpeakersFrame(s: SpeakerState, batch: seq<Speaker>, append: Value)
    ensures var r := Reduce(s, UpdateSpeakers(batch, append));
      r.searchParams == s.searchParams && r.speaker == s.speaker &&
      r.selectedLocation == s.selectedLocation && r.selectedIdentity == s.selectedIdentity
  {
  }

  /** `updateSpeaker` sets the viewed speaker and nothing else. */
  lemma UpdateSpeakerFrame(s: SpeakerState, result: Value)
    ensures var r := Reduce(s, UpdateSpeaker(result));
      r.speaker == result && r.results == s.results && r.endOfResults == s.endOfResults &&
      r.searchParams == s.searchParams &&
      r.selectedLocation == s.selectedLocation && r.selectedIdentity == s.selectedIdentity
  {
  }

  /** `updateSearchParams` gives each key of `params` its new value, keeps
      every other parameter, and changes nothing outside the parameters. */
  lemma UpdateSearchParamsMerges(s: SpeakerState, params: Record)
    ensures var r := Reduce(s, UpdateSearchParams(params));
      r.searchParams.Keys == s.searchParams.Keys + params.Keys &&
      (forall k :: k in params ==> r.searchParams[k] == params[k]) &&
      (forall k :: k in s.searchParams && k !in params ==> r.searchParams[k] == s.searchParams[k]) &&
      r.results == s.results && r.endOfResults == s.endOfResults && r.speaker == s.speaker &&
      r.selectedLocation == s.selectedLocation && r.selectedIdentity == s.selectedIdentity
  {
  }

  /** An action of any other type leaves the state as it was. */
  lemma OtherActionUnchanged(s: SpeakerState, kind: string)
    ensures Reduce(s, Other(kind)) == s
  {
  }

  /** Appending `[{id: 2, ..B2}, {id: 3, ..C}]` to `[{id: 1, ..A}, {id: 2, ..B}]`
      gives `[A, B, C]`: speaker 2 keeps the fields it already had. */
  lemma AppendScenario(s: SpeakerState)
    requires s.results == [map["id" := Num(1), "name" := Str("A")], map["id" := Num(2), "name" := Str("B")]]
    ensures Reduce(s, UpdateSpeakers([map["id" := Num(2), "name" := Str("B2")],
                                     map["id" := Num(3), "name" := Str("C")]], Bool(true))).results
         == [map["id" := Num(1), "name" := Str("A")], map["id" := Num(2), "name" := Str("B")],
             map["id" := Num(3), "name" := Str("C")]]
  {
    var a: Speaker := map["id" := Num(1), "name" := Str("A")];
    var b: Speaker := map["id" := Num(2), "name" := Str("B")];
    var b2: Speaker := map["id" := Num(2), "name" := Str("B2")];
    var c: Speaker := map["id" := Num(3), "name" := Str("C")];
    ScenarioDedup(a, b, b2, c);
  }

  /** The list computation behind `AppendScenario`, for any four speakers
      with ids 1, 2, 2 and 3. */
  lemma ScenarioDedup(a: Speaker, b: Speaker, b2: Speaker, c: Speaker)
    requires IdOf(a) == Num(1) && IdOf(b) == Num(2) && IdOf(b2) == Num(2) && IdOf(c) == Num(3)
    ensures UniqById([a, b] + [b2, c]) == [a, b, c]
  {
    var prior := [a, b];
    assert UniqueIds(prior);
    UniqByIdIdempotent(prior);
    IdsCons(prior);
    IdsCons(prior[1..]);
    assert Ids(prior) == {Num(1), Num(2)};
    assert UniqFrom([c], {Num(1), Num(2)}) == [c];
    assert [b2, c][1..] == [c];
    assert UniqFrom([b2, c], {Num(1), Num(2)}) == [c];
    AppendKeepsEarlier(prior, [b2, c]);
  }
}
