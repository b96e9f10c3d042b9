/**
 * The Angular client's store reducer for the game slice. The state is a
 * plain object; each action builds a new object by object spread, so a
 * later source overrides an earlier one key by key while keys keep the
 * place where they first appeared.
 */
module GameReducer {
  import opened Wrappers
  import opened OrderedMaps
  import opened Json

  type State = Entries<JsValue>

  /** The game actions, with the payload each carries. */
  datatype Action =
    | UpdateStore(payload: JsValue)
    | UpdateUserData(userData: JsValue)
    | Loading(payload: JsValue)
    | LoadUser
    | LoadGameFail(errorMessage: string)
    | LoadGameSuccess(payload: JsValue)
    | OpenSocket
    | UpdateSocketData(message: string, payload: JsValue)
    | SetPlayerId(playerName: string)

  /** `initialState`. */
  function InitialState(): State {
    [("gameID", Str("testing")), ("selectedTiles", Arr([])), ("playerID", Str("")),
     ("loaded", Bool(false)), ("loading", Bool(false))]
  }

  /** The initial state: game `testing`, no selected tiles, no player id, neither loaded nor loading. */
  lemma {:induction false} InitialStateFields()
    ensures Get(InitialState(), "gameID") == Some(Str("testing"))
    ensures Get(InitialState(), "selectedTiles") == Some(Arr([]))
    ensures Get(InitialState(), "playerID") == Some(Str(""))
    ensures Get(InitialState(), "loaded") == Some(Bool(false))
    ensures Get(InitialState(), "loading") == Some(Bool(false))
  {
    var s := InitialState();
    assert "selectedTiles"[0] != "gameID"[0];
    assert "playerID"[0] != "gameID"[0] && "playerID"[0] != "selectedTiles"[0];
    assert "loaded"[0] != "gameID"[0] && "loaded"[0] != "selectedTiles"[0] && "loaded"[0] != "playerID"[0];
    assert "loading"[0] != "gameID"[0] && "loading"[0] != "selectedTiles"[0] && "loading"[0] != "playerID"[0];
    assert |"loading"| != |"loaded"|;
  }

  /** `{...state, loading: l, loaded: d, ...extra}`. */
  function Flags(state: State, loading: bool, loaded: bool, extra: JsValue): State {
    Merge(Put(Put(state, "loading", Bool(loading)), "loaded", Bool(loaded)), OwnEntries(extra))
  }

  /** `gameReducer` on a present state. */
  function Reduce(state: State, action: Action): State {
    match action
    case UpdateStore(payload) => Merge(state, OwnEntries(payload))
    case Loading(payload) => Flags(state, true, false, payload)
    case LoadGameSuccess(payload) => Flags(state, false, true, payload)
    // The failure action carries no `payload`; spreading `undefined` adds nothing.
    case LoadGameFail(_) => Flags(state, false, true, Undefined)
    case _ => state
  }

  /** `gameReducer(state = initialState, action)`: a missing state starts from the initial one. */
  function ReduceOrInitial(state: Option<State>, action: Action): (r: State)
    ensures state.None? ==> r == Reduce(InitialState(), action)
    ensures state.Some? ==> r == Reduce(state.value, action)
  {
    Reduce(if state.Some? then state.value else InitialState(), action)
  }

  /** The object an action spreads last, if any. */
  function Spread(action: Action): seq<(string, JsValue)> {
    match action
    case UpdateStore(payload) => OwnEntries(payload)
    case Loading(payload) => OwnEntries(payload)
    case LoadGameSuccess(payload) => OwnEntries(payload)
    case _ => []
  }

  /**
   * What the new state holds under `k`, read key by key: the spread
   * payload wins; then the flags the action sets (loading for `LOADING`,
   * loaded for the success and failure actions); then the old state.
   */
  function Lookup(state: State, action: Action, k: string): Option<JsValue> {
    var flags := action.Loading? || action.LoadGameSuccess? || action.LoadGameFail?;
    if k in Keys(Spread(action)) then Get(Spread(action), k)
    else if flags && k == "loading" then Some(Bool(action.Loading?))
    else if flags && k == "loaded" then Some(Bool(!action.Loading?))
    else Get(state, k)
  }

  /** Every key of the new state reads as `Lookup` says. */
  lemma {:induction false} ReduceLookup(state: State, action: Action, k: string)
    requires WellFormed(Spread(action))
    ensures Get(Reduce(state, action), k) == Lookup(state, action, k)
  {
    match action
    case UpdateStore(payload) =>
      GetMerge(state, OwnEntries(payload), k);
    case Loading(payload) =>
      FlagsLookup(state, true, false, payload, k);
    case LoadGameSuccess(payload) =>
      FlagsLookup(state, false, true, payload, k);
    case LoadGameFail(_) =>
      FlagsLookup(state, false, true, Undefined, k);
    case _ =>
  }

  lemma {:induction false} FlagsLookup(state: State, loading: bool, loaded: bool, extra: JsValue, k: string)
    requires WellFormed(OwnEntries(extra))
    ensures Get(Flags(state, loading, loaded, extra), k) ==
      if k in Keys(OwnEntries(extra)) then Get(OwnEntries(extra), k)
      else if k == "loading" then Some(Bool(loading))
      else if k == "loaded" then Some(Bool(loaded))
      else Get(state, k)
  {
    var s1 := Put(state, "loading", Bool(loading));
    var s2 := Put(s1, "loaded", Bool(loaded));
    GetMerge(s2, OwnEntries(extra), k);
    GetPut(s1, "loaded", Bool(loaded), k);
    GetPut(state, "loading", Bool(loading), k);
  }

  /**
   * The new state keeps the old keys in their places and holds no key
   * twice, so later reads and spreads see one value per key.
   */
  lemma {:induction false} ReduceKeepsKeys(state: State, action: Action)
    requires WellFormed(state)
    ensures WellFormed(Reduce(state, action))
    ensures |Keys(state)| <= |Keys(Reduce(state, action))|
    ensures Keys(Reduce(state, action))[..|state|] == Keys(state)
  {
    match action
    case UpdateStore(payload) =>
      MergeWellFormed(state, OwnEntries(payload));
      KeysMerge(state, OwnEntries(payload));
    case Loading(payload) =>
      FlagsKeepKeys(state, true, false, payload);
    case LoadGameSuccess(payload) =>
      FlagsKeepKeys(state, false, true, payload);
    case LoadGameFail(_) =>
      FlagsKeepKeys(state, false, true, Undefined);
    case _ =>
  }

  lemma {:induction false} FlagsKeepKeys(state: State, loading: bool, loaded: bool, extra: JsValue)
    requires WellFormed(state)
    ensures WellFormed(Flags(state, loading, loaded, extra))
    ensures |state| <= |Flags(state, loading, loaded, extra)|
    ensures Keys(Flags(state, loading, loaded, extra))[..|state|] == Keys(state)
  {
    var s1 := Put(state, "loading", Bool(loading));
    var s2 := Put(s1, "loaded", Bool(loaded));
    PutKeepsOrder(state, "loading", Bool(loading));
    PutKeepsOrder(s1, "loaded", Bool(loaded));
    MergeWellFormed(s2, OwnEntries(extra));
    KeysMerge(s2, OwnEntries(extra));
    assert Keys(s2)[..|state|] == Keys(s1)[..|s1|][..|state|];
  }

  /** Assignment keeps an object well formed and its keys in their places. */
  lemma {:induction false} PutKeepsOrder(m: State, k: string, v: JsValue)
    requires WellFormed(m)
    ensures WellFormed(Put(m, k, v)) && |m| <= |Put(m, k, v)|
    ensures Keys(Put(m, k, v))[..|m|] == Keys(m)
  {
    PutWellFormed(m, k, v);
    KeysPut(m, k, v);
  }
}
