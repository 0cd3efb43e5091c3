/** The state synchronisation of src/App.tsx: the app holds one device snapshot with
    an online flag and a loading flag, and every completed fetch replaces all three.
    The 2000 ms polling interval is a sequence of fetch outcomes. */
module App {
  import opened Types

  /** The three pieces of state `fetchState` writes. */
  datatype SyncState = SyncState(deviceState: DeviceState, isOnline: bool, isLoading: bool)

  /** Before the first fetch completes: the stub, offline, still loading. */
  const InitialSync := SyncState(StubDeviceState, false, true)

  /** The state after one fetch settles: its snapshot and online on success, the stub and
      offline on any failure, and no longer loading in both cases. */
  function AfterFetch(s: SyncState, o: Outcome<DeviceState>): (t: SyncState)
    ensures !t.isLoading
    ensures o.Fulfilled? ==> t.deviceState == o.value && t.isOnline
    ensures o.Failed? ==> t.deviceState == StubDeviceState && !t.isOnline
  {
    match o
    case Fulfilled(state) => SyncState(state, true, false)
    case Failed(_) => SyncState(StubDeviceState, false, false)
  }

  /** The state after a run of fetches, applied in the order they settle. */
  function AfterFetches(s: SyncState, os: seq<Outcome<DeviceState>>): SyncState
    decreases |os|
  {
    if os == [] then s else AfterFetches(AfterFetch(s, os[0]), os[1..])
  }

  /** A single fetch does not look at the state before it. */
  lemma AfterFetchIgnoresPrevious(s1: SyncState, s2: SyncState, o: Outcome<DeviceState>)
    ensures AfterFetch(s1, o) == AfterFetch(s2, o)
  {
  }

  /** Last write wins: after any non-empty run the state is what the last outcome alone
      gives, whatever came before it. */
  lemma {:induction false} LastWriteWins(s: SyncState, os: seq<Outcome<DeviceState>>)
    requires |os| > 0
    ensures AfterFetches(s, os) == AfterFetch(s, os[|os| - 1])
    decreases |os|
  {
    if |os| > 1 {
      LastWriteWins(AfterFetch(s, os[0]), os[1..]);
      assert os[1..][|os[1..]| - 1] == os[|os| - 1];
    }
  }

  /** Never a blend of real and stub data: the snapshot shown is either the last
      successful one, online, or the stub, offline. */
  lemma {:induction false} NoMerge(s: SyncState, os: seq<Outcome<DeviceState>>)
    requires |os| > 0
    ensures var t, last := AfterFetches(s, os), os[|os| - 1];
      (last.Fulfilled? && t == SyncState(last.value, true, false))
      || (last.Failed? && t == SyncState(StubDeviceState, false, false))
  {
    LastWriteWins(s, os);
  }

  /** Once loading has ended it never starts again. */
  lemma {:induction false} LoadingStaysOff(s: SyncState, os: seq<Outcome<DeviceState>>)
    requires !s.isLoading || |os| > 0
    ensures !AfterFetches(s, os).isLoading
    decreases |os|
  {
    if |os| > 0 {
      LoadingStaysOff(AfterFetch(s, os[0]), os[1..]);
    }
  }

  lemma {:induction false} AfterFetchesAppend(s: SyncState, os: seq<Outcome<DeviceState>>, o: Outcome<DeviceState>)
    ensures AfterFetches(s, os + [o]) == AfterFetch(AfterFetches(s, os), o)
    decreases |os|
  {
    if os != [] {
      assert (os + [o])[1..] == os[1..] + [o];
      AfterFetchesAppend(AfterFetch(s, os[0]), os[1..], o);
    }
  }

  /** A recovery: a failure shows the stub, and a later success shows the new snapshot
      alone, not merged with the stub. */
  lemma RecoveryAfterFailure(s: SyncState, e: Thrown, state: DeviceState)
    ensures AfterFetches(s, [Failed(e)]) == SyncState(StubDeviceState, false, false)
    ensures AfterFetches(s, [Failed(e), Fulfilled(state)]) == SyncState(state, true, false)
  {
    LastWriteWins(s, [Failed(e), Fulfilled(state)]);
  }

  /** The mounted application component. `fetches` records every fetch outcome applied,
      in order. */
  class App {
    var deviceState: DeviceState
    var isOnline: bool
    var isLoading: bool
    ghost var fetches: seq<Outcome<DeviceState>>

    function View(): SyncState
      reads this
    {
      SyncState(deviceState, isOnline, isLoading)
    }

    /** The state is what the recorded fetches made of the initial state. */
    ghost predicate Valid()
      reads this
    {
      View() == AfterFetches(InitialSync, fetches)
    }

    constructor ()
      ensures Valid() && View() == InitialSync && fetches == []
    {
      deviceState := StubDeviceState;
      isOnline := false;
      isLoading := true;
      fetches := [];
    }

    /** `fetchState` once `getDeviceState()` has settled with `o`. */
    method FetchState(o: Outcome<DeviceState>)
      requires Valid()
      modifies this
      ensures Valid()
      ensures View() == AfterFetch(old(View()), o)
      ensures fetches == old(fetches) + [o]
    {
      match o {
        case Fulfilled(state) =>
          deviceState := state;
          isOnline := true;
        case Failed(_) =>
          isOnline := false;
          deviceState := StubDeviceState;
      }
      isLoading := false;
      AfterFetchesAppend(InitialSync, fetches, o);
      fetches := fetches + [o];
    }

    /** `handleUpdate`: exactly one more fetch, never merged with one already pending. */
    method HandleUpdate(o: Outcome<DeviceState>)
      requires Valid()
      modifies this
      ensures Valid()
      ensures View() == AfterFetch(old(View()), o)
      ensures fetches == old(fetches) + [o]
    {
      FetchState(o);
    }

    /** The polling effect: the fetch on mount and then one per interval tick, each
        applied as it settles. */
    method Poll(outcomes: seq<Outcome<DeviceState>>)
      requires Valid()
      modifies this
      ensures Valid()
      ensures View() == AfterFetches(old(View()), outcomes)
      ensures fetches == old(fetches) + outcomes
    {
      ghost var start := View();
      var i := 0;
      while i < |outcomes|
        invariant 0 <= i <= |outcomes|
        invariant Valid()
        invariant View() == AfterFetches(start, outcomes[..i])
        invariant fetches == old(fetches) + outcomes[..i]
      {
        AfterFetchesAppend(start, outcomes[..i], outcomes[i]);
        assert outcomes[..i + 1] == outcomes[..i] + [outcomes[i]];
        FetchState(outcomes[i]);
        i := i + 1;
      }
      assert outcomes[..i] == outcomes;
    }
  }
}
