/**
 * The host's size-limited structure primitive (`structure save`, `load`
 * and `delete`), seen only through the names and places it is given.
 * Whether a call succeeds is decided by an oracle; the structures the
 * host holds follow from the calls it accepted.
 */
module Structures {
  import opened Vectors

  datatype Call =
    | SaveCall(name: string, from: Vec, to: Vec, includeEntities: bool)
    | LoadCall(name: string, at: Vec)
    | DeleteCall(name: string)

  /** The names held after one call: a successful save adds its name, a successful delete removes it. */
  function StepEffect(fails: Call -> bool, stored: set<string>, c: Call): set<string>
  {
    if fails(c) then stored
    else match c
      case SaveCall(n, _, _, _) => stored + {n}
      case LoadCall(_, _) => stored
      case DeleteCall(n) => stored - {n}
  }

  /** The names held after a sequence of calls, starting from `stored`. */
  function Effect(fails: Call -> bool, stored: set<string>, calls: seq<Call>): set<string>
    decreases |calls|
  {
    if calls == [] then stored
    else StepEffect(fails, Effect(fails, stored, calls[..|calls| - 1]), calls[|calls| - 1])
  }

  lemma {:induction false} EffectAppend(fails: Call -> bool, stored: set<string>, a: seq<Call>, b: seq<Call>)
    ensures Effect(fails, stored, a + b) == Effect(fails, Effect(fails, stored, a), b)
    decreases |b|
  {
    if b == [] {
      assert a + b == a;
    } else {
      EffectAppend(fails, stored, a, b[..|b| - 1]);
      assert (a + b)[..|a + b| - 1] == a + b[..|b| - 1];
    }
  }

  /** A name no call of the sequence mentions keeps its status. */
  lemma {:induction false} EffectUntouched(fails: Call -> bool, stored: set<string>, calls: seq<Call>, n: string)
    requires forall i :: 0 <= i < |calls| ==> calls[i].name != n
    ensures n in Effect(fails, stored, calls) <==> n in stored
    decreases |calls|
  {
    if calls != [] {
      EffectUntouched(fails, stored, calls[..|calls| - 1], n);
    }
  }

  /** The names a sequence of calls mentions. */
  function Names(calls: seq<Call>): (names: set<string>)
    ensures forall i :: 0 <= i < |calls| ==> calls[i].name in names
  {
    set i | 0 <= i < |calls| :: calls[i].name
  }

  lemma NamesSnoc(calls: seq<Call>)
    requires calls != []
    ensures Names(calls) == Names(calls[..|calls| - 1]) + {calls[|calls| - 1].name}
  {
    var init := calls[..|calls| - 1];
    forall n | n in Names(calls) ensures n in Names(init) + {calls[|calls| - 1].name} {
      var i :| 0 <= i < |calls| && calls[i].name == n;
      if i < |calls| - 1 { assert init[i] == calls[i]; }
    }
    forall n | n in Names(init) ensures n in Names(calls) {
      var i :| 0 <= i < |init| && init[i].name == n;
      assert calls[i] == init[i];
    }
  }

  /** Calls the host refuses leave its structures as they are. */
  lemma {:induction false} EffectRefused(fails: Call -> bool, stored: set<string>, calls: seq<Call>)
    requires forall i :: 0 <= i < |calls| ==> fails(calls[i])
    ensures Effect(fails, stored, calls) == stored
    decreases |calls|
  {
    if calls != [] {
      EffectRefused(fails, stored, calls[..|calls| - 1]);
    }
  }

  /** Loads never change the host's structures, whatever their outcome. */
  lemma {:induction false} EffectLoads(fails: Call -> bool, stored: set<string>, calls: seq<Call>)
    requires forall i :: 0 <= i < |calls| ==> calls[i].LoadCall?
    ensures Effect(fails, stored, calls) == stored
    decreases |calls|
  {
    if calls != [] {
      EffectLoads(fails, stored, calls[..|calls| - 1]);
    }
  }

  /** Accepted saves add exactly the names they were given. */
  lemma {:induction false} EffectSaves(fails: Call -> bool, stored: set<string>, calls: seq<Call>)
    requires forall i :: 0 <= i < |calls| ==> calls[i].SaveCall? && !fails(calls[i])
    ensures Effect(fails, stored, calls) == stored + Names(calls)
    decreases |calls|
  {
    if calls != [] {
      EffectSaves(fails, stored, calls[..|calls| - 1]);
      NamesSnoc(calls);
    }
  }

  /** Accepted deletes remove exactly the names they were given. */
  lemma {:induction false} EffectDeletes(fails: Call -> bool, stored: set<string>, calls: seq<Call>)
    requires forall i :: 0 <= i < |calls| ==> calls[i].DeleteCall? && !fails(calls[i])
    ensures Effect(fails, stored, calls) == stored - Names(calls)
    decreases |calls|
  {
    if calls != [] {
      EffectDeletes(fails, stored, calls[..|calls| - 1]);
      NamesSnoc(calls);
    }
  }

  /** The host: the oracle that decides each call, and the calls issued so far. */
  class Host {
    const fails: Call -> bool
    var log: seq<Call>

    constructor(fails: Call -> bool)
      ensures this.fails == fails && log == []
    {
      this.fails := fails;
      log := [];
    }

    /** The structures the host holds. */
    function Stored(): set<string>
      reads this
    {
      Effect(fails, {}, log)
    }

    /** Runs one primitive call; like the source's `runCommand(...).error`, true means failure. */
    method Run(c: Call) returns (error: bool)
      modifies this
      ensures log == old(log) + [c]
      ensures error == fails(c)
    {
      log := log + [c];
      error := fails(c);
    }
  }
}
