/**
  The timer helpers of timeout.js: `setTimeout`/`setInterval` on top of
  `GLib.timeout_add`, with every live handle recorded in the module-level
  array `SOURCES` so that `clearSources` can cancel them all when the
  extension is disabled.

  The GLib main loop is modelled as a map from live source ids to their
  timers, and `GLib.timeout_add` as a supplier of fresh ids (GLib numbers
  its sources from 1 upwards). The function a timer runs and its arguments
  are not modelled; `Fire` stands for the main loop dispatching a timer.
 */
module Timeout {
  import Seqs

  /** What GLib knows about a live source: its delay and whether it was added by `setTimeout`. */
  datatype Timer = Timer(delay: nat, oneShot: bool)

  /** `SOURCES`, GLib's live sources, and the next id GLib hands out. */
  datatype Registry = Registry(sources: seq<nat>, timers: map<nat, Timer>, nextId: nat)

  const Initial := Registry([], map[], 1)

  /** Every recorded handle is live and every live source is recorded, once; ids are below `nextId`. */
  predicate Valid(r: Registry) {
    && Seqs.NoDuplicates(r.sources)
    && (forall h :: h in r.sources ==> h in r.timers)
    && (forall h :: h in r.timers ==> h in r.sources)
    && (forall h :: h in r.timers ==> 0 < h < r.nextId)
    && r.nextId > 0
  }

  /** `addSource`: register a GLib timer under a fresh id and push the id onto `SOURCES`. */
  function Add(r: Registry, delay: nat, oneShot: bool): Registry {
    Registry(r.sources + [r.nextId], r.timers[r.nextId := Timer(delay, oneShot)], r.nextId + 1)
  }

  /** The handle `Add` returns. */
  function Added(r: Registry): nat {
    r.nextId
  }

  /** `clearSource`: `GLib.Source.remove`, then splice the first occurrence out of `SOURCES`. */
  function Clear(r: Registry, h: nat): Registry {
    Registry(Seqs.RemoveFirst(r.sources, h), r.timers - {h}, r.nextId)
  }

  /** `clearSources`: clear `SOURCES[0]` until the array is empty. */
  function ClearAll(r: Registry): Registry
    decreases |r.sources|
  {
    if r.sources == [] then r
    else ClearAll(Clear(r, r.sources[0]))
  }

  /**
    The callback GLib runs when timer `h` expires: after the user function,
    a one-shot timer clears its own handle and answers `SOURCE_REMOVE`
    (`false`), an interval answers `SOURCE_CONTINUE` (`true`).
   */
  function Fire(r: Registry, h: nat): (Registry, bool)
    requires h in r.timers
  {
    if r.timers[h].oneShot then (Clear(r, h), false) else (r, true)
  }

  // ---- properties ----

  lemma InitialValid()
    ensures Valid(Initial)
    ensures Initial.sources == []
  {
  }

  /**
    `addSource` appends exactly one handle, a fresh one, and returns it;
    the earlier handles are untouched.
   */
  lemma AddSpec(r: Registry, delay: nat, oneShot: bool)
    requires Valid(r)
    ensures var r' := Add(r, delay, oneShot);
      && Valid(r')
      && r'.sources == r.sources + [Added(r)]
      && |r'.sources| == |r.sources| + 1
      && Added(r) !in r.sources
      && r'.timers[Added(r)] == Timer(delay, oneShot)
      && (forall h :: h in r.timers ==> h in r'.timers && r'.timers[h] == r.timers[h])
  {
    Seqs.NoDuplicatesSnoc(r.sources, r.nextId);
  }

  /**
    `clearSource` of an unknown handle leaves `SOURCES` as it is. Of a
    recorded handle it removes exactly that handle, keeps the others in
    their order, and cancels its timer.
   */
  lemma ClearSpec(r: Registry, h: nat)
    requires Valid(r)
    ensures var r' := Clear(r, h);
      && Valid(r')
      && h !in r'.sources && h !in r'.timers
      && (h !in r.sources ==> r'.sources == r.sources)
      && (h in r.sources ==> |r'.sources| == |r.sources| - 1)
      && multiset(r'.sources) == multiset(r.sources) - multiset{h}
      && Seqs.IsSubsequence(r'.sources, r.sources)
      && (forall g :: g in r.timers && g != h ==> g in r'.timers && r'.timers[g] == r.timers[g])
  {
    Seqs.RemoveFirstIsSubsequence(r.sources, h);
    Seqs.RemoveFirstMultiset(r.sources, h);
    ClearValid(r, h);
  }

  lemma ClearValid(r: Registry, h: nat)
    requires Valid(r)
    ensures Valid(Clear(r, h))
    ensures h !in Clear(r, h).sources
  {
    Seqs.RemoveFirstNoDuplicates(r.sources, h);
    Seqs.RemoveFirstMembers(r.sources, h);
  }

  /** `clearSources` ends with `SOURCES` empty and, from a valid registry, no timer left running. */
  lemma {:induction false} ClearAllSpec(r: Registry)
    requires Valid(r)
    ensures ClearAll(r).sources == []
    ensures ClearAll(r).timers == map[]
    ensures Valid(ClearAll(r))
    decreases |r.sources|
  {
    if r.sources == [] {
      assert r.timers.Keys == {};
    } else {
      ClearValid(r, r.sources[0]);
      ClearAllSpec(Clear(r, r.sources[0]));
    }
  }

  /**
    A one-shot timer removes its own handle when it fires and asks GLib to
    drop it; an interval keeps its handle and asks to run again.
   */
  lemma FireSpec(r: Registry, h: nat)
    requires Valid(r) && h in r.timers
    ensures var (r', keep) := Fire(r, h);
      && Valid(r')
      && (keep <==> !r.timers[h].oneShot)
      && (r.timers[h].oneShot ==> h !in r'.sources && h !in r'.timers && |r'.sources| == |r.sources| - 1)
      && (!r.timers[h].oneShot ==> r' == r)
  {
    ClearValid(r, h);
  }

  /** A timer added by `setTimeout` fires once: afterwards the registry is as before the call. */
  lemma TimeoutFiresOnce(r: Registry, delay: nat)
    requires Valid(r)
    ensures var r' := Fire(Add(r, delay, true), Added(r)).0;
      r'.sources == r.sources && r'.timers == r.timers && r'.nextId == r.nextId + 1
  {
    var a := Add(r, delay, true);
    AddSpec(r, delay, true);
    assert a.sources[|r.sources|] == Added(r);
    Seqs.IndexOfUnique(a.sources, |r.sources|);
    assert a.sources[..|r.sources|] + a.sources[|r.sources| + 1..] == r.sources;
    assert a.timers - {Added(r)} == r.timers;
  }

  /** The module state of timeout.js: `SOURCES` and the GLib sources it tracks. */
  class Sources {
    var sources: seq<nat>
    var timers: map<nat, Timer>
    var nextId: nat

    function State(): Registry
      reads this
    {
      Registry(sources, timers, nextId)
    }

    constructor()
      ensures State() == Initial
    {
      sources, timers, nextId := [], map[], 1;
    }

    /** `addSource(func, delay, args, remove)`. */
    method AddSource(delay: nat, remove: bool) returns (handle: nat)
      modifies this
      ensures State() == Add(old(State()), delay, remove)
      ensures handle == Added(old(State()))
    {
      handle := nextId;
      timers := timers[handle := Timer(delay, remove)];
      nextId := nextId + 1;
      sources := sources + [handle];
    }

    /** `clearSource(handle)`, also exported as `clearTimeout` and `clearInterval`. */
    method ClearSource(handle: nat)
      modifies this
      ensures State() == Clear(old(State()), handle)
    {
      timers := timers - {handle};
      var index := Seqs.IndexOf(sources, handle);
      if index > -1 {
        sources := sources[..index] + sources[index + 1..];
      }
    }

    /** `clearSources()`. */
    method ClearSources()
      modifies this
      ensures State() == ClearAll(old(State()))
      ensures sources == []
    {
      while |sources| > 0
        invariant ClearAll(State()) == ClearAll(old(State()))
        decreases |sources|
      {
        ClearSource(sources[0]);
      }
    }

    method SetTimeout(delay: nat) returns (handle: nat)
      modifies this
      ensures State() == Add(old(State()), delay, true)
      ensures handle == Added(old(State()))
    {
      handle := AddSource(delay, true);
    }

    method SetInterval(delay: nat) returns (handle: nat)
      modifies this
      ensures State() == Add(old(State()), delay, false)
      ensures handle == Added(old(State()))
    {
      handle := AddSource(delay, false);
    }

    method ClearTimeout(handle: nat)
      modifies this
      ensures State() == Clear(old(State()), handle)
    {
      ClearSource(handle);
    }

    method ClearInterval(handle: nat)
      modifies this
      ensures State() == Clear(old(State()), handle)
    {
      ClearSource(handle);
    }

    /** The GLib callback of timer `handle`; the user function it runs first is not modelled. */
    method Dispatch(handle: nat) returns (keep: bool)
      requires handle in timers
      modifies this
      ensures (State(), keep) == Fire(old(State()), handle)
    {
      if timers[handle].oneShot {
        ClearSource(handle);
        return false;
      }
      return true;
    }
  }
}
