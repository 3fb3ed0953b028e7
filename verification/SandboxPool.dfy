/**
 The sandbox pool: an MPMC queue of idle handles, a concurrent map of active
 ones and a compare-and-swap counter, used by any number of callers at once.
 Every queue, map, flag or counter operation is one atomic step of one caller;
 a run is any interleaving of such steps.
 */
module SandboxPool {
  import opened Prelude

  type SandboxId = nat
  type CallerId = nat

  /** Where a caller stands between two atomic operations. */
  datatype Pc =
    | Idle                      // outside the pool, owning nothing
    | QueueEmpty                // popped nothing, about to load the counter
    | Popped(id: SandboxId)     // popped, not yet in the active map
    | Loaded(current: nat)      // loaded the counter, about to compare-exchange
    | Won                       // incremented the counter, creation in flight
    | Created(id: SandboxId)    // created, not yet in the active map
    | Holding(id: SandboxId)    // acquire returned this handle
    | Removed(id: SandboxId)    // release took it out of the active map
    | Cleared(id: SandboxId)    // release cleared its flag, not yet pushed
    | Rejected                  // acquire returned NoAvailableSandboxes
    | CreationFailed            // acquire returned the creation error

  /**
   `inUse` holds the flag shared by all clones of a handle, so its keys are the
   sandboxes ever created. `failures` counts creations that returned an error.
   */
  datatype Pool = Pool(
    queue: seq<SandboxId>,
    active: set<SandboxId>,
    inUse: map<SandboxId, bool>,
    activeCount: nat,
    maxSandboxes: nat,
    failures: nat,
    callers: map<CallerId, Pc>)

  datatype Action =
    | Pop(c: CallerId)
    | Load(c: CallerId)
    | CompareExchange(c: CallerId)
    | Create(c: CallerId, id: SandboxId)
    | FailCreation(c: CallerId)
    | Activate(c: CallerId)
    | Remove(c: CallerId)
    | ClearFlag(c: CallerId)
    | Push(c: CallerId)
    | GiveUp(c: CallerId)

  function Init(maxSandboxes: nat, callers: set<CallerId>): Pool {
    Pool([], {}, map[], 0, maxSandboxes, 0, map c | c in callers :: Idle)
  }

  predicate Enabled(s: Pool, a: Action) {
    a.c in s.callers &&
    var pc := s.callers[a.c];
    match a
    case Pop(_) => pc == Idle
    case Load(_) => pc == QueueEmpty
    case CompareExchange(_) => pc.Loaded?
    case Create(_, id) => pc == Won && id !in s.inUse
    case FailCreation(_) => pc == Won
    case Activate(_) => pc.Popped? || pc.Created?
    case Remove(_) => pc.Holding?
    case ClearFlag(_) => pc.Removed?
    case Push(_) => pc.Cleared?
    case GiveUp(_) => pc == Rejected || pc == CreationFailed
  }

  function Goto(s: Pool, c: CallerId, pc: Pc): Pool {
    s.(callers := s.callers[c := pc])
  }

  function Apply(s: Pool, a: Action): Pool
    requires Enabled(s, a)
  {
    var c, pc := a.c, s.callers[a.c];
    match a
    case Pop(_) =>
      if s.queue == [] then Goto(s, c, QueueEmpty)
      else Goto(s.(queue := s.queue[1..]), c, Popped(s.queue[0]))
    case Load(_) =>
      if s.activeCount < s.maxSandboxes then Goto(s, c, Loaded(s.activeCount))
      else Goto(s, c, Rejected)
    case CompareExchange(_) =>
      if s.activeCount == pc.current then Goto(s.(activeCount := s.activeCount + 1), c, Won)
      else Goto(s, c, Rejected)
    case Create(_, id) => Goto(s.(inUse := s.inUse[id := true]), c, Created(id))
    case FailCreation(_) => Goto(s.(failures := s.failures + 1), c, CreationFailed)
    case Activate(_) => Goto(s.(active := s.active + {pc.id}), c, Holding(pc.id))
    case Remove(_) => Goto(s.(active := s.active - {pc.id}), c, Removed(pc.id))
    case ClearFlag(_) => Goto(s.(inUse := s.inUse[pc.id := false]), c, Cleared(pc.id))
    case Push(_) => Goto(s.(queue := s.queue + [pc.id]), c, Idle)
    case GiveUp(_) => Goto(s, c, Idle)
  }

  /** `acts` is an interleaving the pool can perform from `s`. */
  ghost predicate IsRun(s: Pool, acts: seq<Action>)
    decreases |acts|, 0
  {
    acts == [] ||
    (IsRun(s, acts[..|acts| - 1]) && Enabled(Run(s, acts[..|acts| - 1]), acts[|acts| - 1]))
  }

  ghost function Run(s: Pool, acts: seq<Action>): Pool
    requires IsRun(s, acts)
    decreases |acts|, 1
  {
    if acts == [] then s
    else Apply(Run(s, acts[..|acts| - 1]), acts[|acts| - 1])
  }

  // ---------------------------------------------------------------- ownership

  /** The caller is the one and only party that may touch sandbox `id`. */
  predicate Owns(pc: Pc, id: SandboxId) {
    match pc
    case Popped(i) => i == id
    case Created(i) => i == id
    case Holding(i) => i == id
    case Removed(i) => i == id
    case Cleared(i) => i == id
    case _ => false
  }

  /** The queue and the callers' hands never share a sandbox, and hold only created ones. */
  ghost predicate Exclusive(s: Pool) {
    && (forall i, j :: 0 <= i < j < |s.queue| ==> s.queue[i] != s.queue[j])
    && (forall i :: 0 <= i < |s.queue| ==> s.queue[i] in s.inUse)
    && (forall c, id | c in s.callers && Owns(s.callers[c], id) :: OnlyOwner(s, c, id))
  }

  /** Nobody but caller `c` has `id`, and it is not in the queue. */
  ghost predicate OnlyOwner(s: Pool, c: CallerId, id: SandboxId) {
    && id in s.inUse && id !in s.queue
    && (forall d | d in s.callers && Owns(s.callers[d], id) :: c == d)
  }

  ghost predicate HasOwner(s: Pool, id: SandboxId) {
    exists c :: c in s.callers && Owns(s.callers[c], id)
  }

  /** No created sandbox is ever lost. */
  ghost predicate Complete(s: Pool) {
    forall id | id in s.inUse :: id in s.queue || HasOwner(s, id)
  }

  ghost predicate Ownership(s: Pool) {
    Exclusive(s) && Complete(s)
  }

  /** The active map holds exactly the sandboxes some caller has acquired and not begun to release. */
  ghost predicate ActiveIsHeld(s: Pool) {
    forall id :: id in s.active <==> exists c :: c in s.callers && s.callers[c] == Holding(id)
  }

  /** What the acting caller owns after its step, and what the queue holds. */
  lemma OwnedAfterStep(s: Pool, a: Action, id: SandboxId)
    requires Enabled(s, a)
    ensures Owns(Apply(s, a).callers[a.c], id) ==>
              Owns(s.callers[a.c], id) || (a.Create? && id == a.id) || (a.Pop? && s.queue != [] && id == s.queue[0])
    ensures id in Apply(s, a).queue ==> id in s.queue || (a.Push? && Owns(s.callers[a.c], id))
    ensures a.Push? ==> !Owns(Apply(s, a).callers[a.c], id)
    ensures s.inUse.Keys <= Apply(s, a).inUse.Keys
  {
    assert a.Pop? && s.queue != [] ==> s.queue == [s.queue[0]] + Apply(s, a).queue;
  }

  lemma QueueAfterStep(s: Pool, a: Action)
    requires Exclusive(s) && Enabled(s, a)
    ensures forall i, j :: 0 <= i < j < |Apply(s, a).queue| ==> Apply(s, a).queue[i] != Apply(s, a).queue[j]
    ensures a.Pop? && s.queue != [] ==> s.queue[0] !in Apply(s, a).queue
  {
    if a.Push? {
      assert Owns(s.callers[a.c], s.callers[a.c].id);
    }
  }

  lemma StepKeepsExclusive(s: Pool, a: Action)
    requires Exclusive(s) && Enabled(s, a)
    ensures Exclusive(Apply(s, a))
  {
    var t := Apply(s, a);
    QueueAfterStep(s, a);
    forall i | 0 <= i < |t.queue|
      ensures t.queue[i] in t.inUse
    {
      OwnedAfterStep(s, a, t.queue[i]);
    }
    forall c, id | c in t.callers && Owns(t.callers[c], id)
      ensures OnlyOwner(t, c, id)
    {
      OwnedOnceAfterStep(s, a, c, id);
    }
  }

  lemma OwnedOnceAfterStep(s: Pool, a: Action, c: CallerId, id: SandboxId)
    requires Exclusive(s) && Enabled(s, a)
    requires c in s.callers && Owns(Apply(s, a).callers[c], id)
    ensures OnlyOwner(Apply(s, a), c, id)
  {
    OwnedAfterStep(s, a, id);
    QueueAfterStep(s, a);
    forall d | d in s.callers && Owns(Apply(s, a).callers[d], id)
      ensures c == d
    {
      assert c != a.c ==> Owns(s.callers[c], id);
      assert d != a.c ==> Owns(s.callers[d], id);
    }
  }

  lemma StepKeepsComplete(s: Pool, a: Action)
    requires Complete(s) && Enabled(s, a)
    ensures Complete(Apply(s, a))
  {
    var t := Apply(s, a);
    assert a.Pop? && s.queue != [] ==> s.queue == [s.queue[0]] + t.queue;
    forall id | id in t.inUse
      ensures id in t.queue || HasOwner(t, id)
    {
      assert Owns(t.callers[a.c], id) ==> HasOwner(t, id);
      if id in s.inUse && id !in s.queue {
        var c :| c in s.callers && Owns(s.callers[c], id);
        assert c != a.c ==> t.callers[c] == s.callers[c];
        if c == a.c && a.Push? {
          assert t.queue[|s.queue|] == id;
        }
      }
    }
  }

  lemma StepKeepsActive(s: Pool, a: Action)
    requires Exclusive(s) && ActiveIsHeld(s) && Enabled(s, a)
    ensures ActiveIsHeld(Apply(s, a))
  {
    var t := Apply(s, a);
    forall id
      ensures id in t.active <==> exists c :: c in t.callers && t.callers[c] == Holding(id)
    {
      if id in t.active {
        if id in s.active {
          var c :| c in s.callers && s.callers[c] == Holding(id);
          assert Owns(s.callers[c], id);
          assert t.callers[c] == Holding(id);
        } else {
          assert t.callers[a.c] == Holding(id);
        }
      }
      if c :| c in t.callers && t.callers[c] == Holding(id) {
        if c != a.c {
          assert s.callers[c] == Holding(id);
          assert Owns(s.callers[c], id);
        }
      }
    }
  }

  // ------------------------------------------------------------------ counter

  function Winners(s: Pool): set<CallerId> {
    set c | c in s.callers && s.callers[c] == Won
  }

  /** The counter never falls: it counts every creation that was ever begun. */
  ghost predicate Accounting(s: Pool) {
    && s.activeCount == |s.inUse.Keys| + |Winners(s)| + s.failures
    && s.activeCount <= s.maxSandboxes
    && (forall c | c in s.callers && s.callers[c].Loaded? ::
          s.callers[c].current <= s.activeCount && s.callers[c].current < s.maxSandboxes)
  }

  lemma WinnersAfterMove(s: Pool, t: Pool, c: CallerId, pc: Pc)
    requires c in s.callers && t.callers == s.callers[c := pc]
    ensures |Winners(t)| == |Winners(s)| + (if pc == Won then 1 else 0) - (if s.callers[c] == Won then 1 else 0)
  {
    var others := Winners(s) - {c};
    assert Winners(s) == if s.callers[c] == Won then others + {c} else others;
    assert Winners(t) == if pc == Won then others + {c} else others;
  }

  lemma WinnersAfterStep(s: Pool, a: Action)
    requires Enabled(s, a)
    ensures |Winners(Apply(s, a))| == |Winners(s)| + (if Apply(s, a).callers[a.c] == Won then 1 else 0)
                                                   - (if s.callers[a.c] == Won then 1 else 0)
  {
    WinnersAfterMove(s, Apply(s, a), a.c, Apply(s, a).callers[a.c]);
  }

  lemma KeysAfterUpdate(m: map<SandboxId, bool>, id: SandboxId, flag: bool)
    ensures |m[id := flag].Keys| == |m.Keys| + if id in m then 0 else 1
  {
    assert m[id := flag].Keys == m.Keys + {id};
    assert id in m ==> m.Keys + {id} == m.Keys;
  }

  lemma CreatedAfterStep(s: Pool, a: Action)
    requires Exclusive(s) && Enabled(s, a)
    ensures |Apply(s, a).inUse.Keys| == |s.inUse.Keys| + if a.Create? then 1 else 0
  {
    if a.Create? {
      KeysAfterUpdate(s.inUse, a.id, true);
    } else if a.ClearFlag? {
      assert Owns(s.callers[a.c], s.callers[a.c].id);
      KeysAfterUpdate(s.inUse, s.callers[a.c].id, false);
    }
  }

  lemma StepKeepsAccounting(s: Pool, a: Action)
    requires Exclusive(s) && Accounting(s) && Enabled(s, a)
    ensures Accounting(Apply(s, a))
    ensures s.activeCount <= Apply(s, a).activeCount
  {
    WinnersAfterStep(s, a);
    CreatedAfterStep(s, a);
  }

  // -------------------------------------------------------------------- flags

  /** A flag is up from creation to the first release and stays down afterwards. */
  ghost predicate Flags(s: Pool) {
    && (forall i :: 0 <= i < |s.queue| ==> s.queue[i] in s.inUse && !s.inUse[s.queue[i]])
    && (forall c | c in s.callers && (s.callers[c].Popped? || s.callers[c].Cleared?) ::
          s.callers[c].id in s.inUse && !s.inUse[s.callers[c].id])
    && (forall c | c in s.callers && s.callers[c].Created? ::
          s.callers[c].id in s.inUse && s.inUse[s.callers[c].id])
  }

  lemma StepKeepsFlags(s: Pool, a: Action)
    requires Exclusive(s) && Flags(s) && Enabled(s, a)
    ensures Flags(Apply(s, a))
    ensures forall id | id in s.inUse && !s.inUse[id] :: id in Apply(s, a).inUse && !Apply(s, a).inUse[id]
  {
    var t := Apply(s, a);
    assert a.ClearFlag? ==> Owns(s.callers[a.c], s.callers[a.c].id);
    forall c | c in t.callers && t.callers[c].Created?
      ensures t.callers[c].id in t.inUse && t.inUse[t.callers[c].id]
    {
      if c != a.c {
        assert Owns(s.callers[c], s.callers[c].id);
      }
    }
  }

  // --------------------------------------------------------------- every run

  ghost predicate Inv(s: Pool) {
    Ownership(s) && ActiveIsHeld(s) && Accounting(s) && Flags(s)
  }

  lemma {:induction false} RunKeepsInv(maxSandboxes: nat, callers: set<CallerId>, acts: seq<Action>)
    requires IsRun(Init(maxSandboxes, callers), acts)
    ensures Inv(Run(Init(maxSandboxes, callers), acts))
    ensures Run(Init(maxSandboxes, callers), acts).maxSandboxes == maxSandboxes
  {
    var init := Init(maxSandboxes, callers);
    if acts == [] {
      assert Winners(init) == {};
    } else {
      var front, a := acts[..|acts| - 1], acts[|acts| - 1];
      RunKeepsInv(maxSandboxes, callers, front);
      var s := Run(init, front);
      StepKeepsExclusive(s, a);
      StepKeepsComplete(s, a);
      StepKeepsActive(s, a);
      StepKeepsAccounting(s, a);
      StepKeepsFlags(s, a);
    }
  }

  ghost function Owners(s: Pool, id: SandboxId): set<CallerId> {
    set c | c in s.callers && Owns(s.callers[c], id)
  }

  /**
   In every interleaving each created sandbox is in exactly one place, the queue
   or one caller's hands, and nothing else is in any place at all.
   */
  lemma EverySandboxInOnePlace(maxSandboxes: nat, callers: set<CallerId>, acts: seq<Action>, id: SandboxId)
    requires IsRun(Init(maxSandboxes, callers), acts)
    ensures var s := Run(Init(maxSandboxes, callers), acts);
            multiset(s.queue)[id] + |Owners(s, id)| == if id in s.inUse then 1 else 0
  {
    RunKeepsInv(maxSandboxes, callers, acts);
    OnePlace(Run(Init(maxSandboxes, callers), acts), id);
  }

  lemma OnePlace(s: Pool, id: SandboxId)
    requires Ownership(s)
    ensures multiset(s.queue)[id] + |Owners(s, id)| == if id in s.inUse then 1 else 0
  {
    DistinctMultiplicity(s.queue, id);
    if HasOwner(s, id) {
      var c :| c in s.callers && Owns(s.callers[c], id);
      assert Owners(s, id) == {c};
    } else {
      assert Owners(s, id) == {};
    }
  }

  lemma {:induction false} DistinctMultiplicity(q: seq<SandboxId>, id: SandboxId)
    requires forall i, j :: 0 <= i < j < |q| ==> q[i] != q[j]
    ensures multiset(q)[id] == if id in q then 1 else 0
  {
    if q != [] {
      var rest := q[1..];
      DistinctMultiplicity(rest, id);
      assert q == [q[0]] + rest;
    }
  }

  /** No two callers ever have the same sandbox, held or in transit, and what is held is in the active map. */
  lemma NoSandboxHeldTwice(maxSandboxes: nat, callers: set<CallerId>, acts: seq<Action>, c: CallerId, d: CallerId,
                           id: SandboxId)
    requires IsRun(Init(maxSandboxes, callers), acts)
    requires c in Run(Init(maxSandboxes, callers), acts).callers && d in Run(Init(maxSandboxes, callers), acts).callers
    ensures var s := Run(Init(maxSandboxes, callers), acts);
            && (Owns(s.callers[c], id) && Owns(s.callers[d], id) ==> c == d)
            && (s.callers[c] == Holding(id) ==> id in s.active)
  {
    RunKeepsInv(maxSandboxes, callers, acts);
    var s := Run(Init(maxSandboxes, callers), acts);
    assert Owns(s.callers[c], id) ==> OnlyOwner(s, c, id);
  }

  /** Created sandboxes, creations in flight and failed creations together never exceed the limit. */
  lemma CounterAccountsForCreations(maxSandboxes: nat, callers: set<CallerId>, acts: seq<Action>)
    requires IsRun(Init(maxSandboxes, callers), acts)
    ensures var s := Run(Init(maxSandboxes, callers), acts);
            s.activeCount == |s.inUse.Keys| + |Winners(s)| + s.failures <= maxSandboxes
  {
    RunKeepsInv(maxSandboxes, callers, acts);
  }

  lemma {:induction false} PrefixIsRun(s: Pool, acts: seq<Action>, k: nat)
    requires IsRun(s, acts) && k <= |acts|
    ensures IsRun(s, acts[..k])
  {
    if k == |acts| {
      assert acts[..k] == acts;
    } else {
      PrefixIsRun(s, acts[..|acts| - 1], k);
      assert acts[..|acts| - 1][..k] == acts[..k];
    }
  }

  /** `acts[k]` is a compare-exchange that took effect. */
  ghost predicate WinsAt(s: Pool, acts: seq<Action>, k: nat)
    requires IsRun(s, acts) && k < |acts|
  {
    PrefixIsRun(s, acts, k);
    var t := Run(s, acts[..k]);
    acts[k].CompareExchange? && acts[k].c in t.callers && t.callers[acts[k].c] == Loaded(t.activeCount)
  }

  ghost function CountAt(s: Pool, acts: seq<Action>, k: nat): nat
    requires IsRun(s, acts) && k <= |acts|
  {
    PrefixIsRun(s, acts, k);
    Run(s, acts[..k]).activeCount
  }

  lemma {:induction false} CounterNeverFalls(maxSandboxes: nat, callers: set<CallerId>, acts: seq<Action>, k: nat)
    requires IsRun(Init(maxSandboxes, callers), acts) && k <= |acts|
    ensures CountAt(Init(maxSandboxes, callers), acts, k) <= Run(Init(maxSandboxes, callers), acts).activeCount
  {
    var init := Init(maxSandboxes, callers);
    if k == |acts| {
      assert acts[..k] == acts;
    } else {
      var front := acts[..|acts| - 1];
      CounterNeverFalls(maxSandboxes, callers, front, k);
      assert front[..k] == acts[..k];
      RunKeepsInv(maxSandboxes, callers, front);
      StepKeepsAccounting(Run(init, front), acts[|acts| - 1]);
    }
  }

  /** Caller `c` has taken no step from `i` on. */
  ghost predicate Quiet(acts: seq<Action>, c: CallerId, i: nat) {
    forall m: nat :: i <= m < |acts| ==> acts[m].c != c
  }

  /** Between the steps `i` and `j` another caller's compare-exchange took effect. */
  ghost predicate OtherWinBetween(s: Pool, acts: seq<Action>, c: CallerId, i: nat, j: nat)
    requires IsRun(s, acts) && j <= |acts|
  {
    exists k: nat :: i < k < j && acts[k].c != c && WinsAt(s, acts, k)
  }

  lemma WinsExtend(s: Pool, acts: seq<Action>, c: CallerId, i: nat, j: nat)
    requires acts != [] && IsRun(s, acts) && j < |acts| && OtherWinBetween(s, acts[..|acts| - 1], c, i, j)
    ensures OtherWinBetween(s, acts, c, i, j)
  {
    var front := acts[..|acts| - 1];
    var k: nat :| i < k < j && front[k].c != c && WinsAt(s, front, k);
    assert front[..k] == acts[..k];
    assert WinsAt(s, acts, k);
  }

  /** `i` is the caller's last step, a load that saw `current`; if the counter moved since, someone else won. */
  ghost predicate LoadedAt(s: Pool, acts: seq<Action>, c: CallerId, current: nat, i: nat)
    requires IsRun(s, acts)
  {
    && i < |acts| && acts[i] == Load(c) && CountAt(s, acts, i) == current && Quiet(acts, c, i + 1)
    && (Run(s, acts).activeCount != current ==> OtherWinBetween(s, acts, c, i, |acts|))
  }

  lemma LoadedExtends(s: Pool, acts: seq<Action>, c: CallerId, current: nat, i: nat)
    requires acts != [] && IsRun(s, acts) && LoadedAt(s, acts[..|acts| - 1], c, current, i)
    requires acts[|acts| - 1].c != c
    ensures LoadedAt(s, acts, c, current, i)
  {
    var n := |acts| - 1;
    var front := acts[..n];
    assert front[..i] == acts[..i];
    if Run(s, acts).activeCount != current {
      if Run(s, front).activeCount == current {
        assert WinsAt(s, acts, n);
      } else {
        WinsExtend(s, acts, c, i, n);
      }
    }
  }

  lemma {:induction false} LoadHasWitness(maxSandboxes: nat, callers: set<CallerId>, acts: seq<Action>, c: CallerId)
    requires IsRun(Init(maxSandboxes, callers), acts)
    requires c in Run(Init(maxSandboxes, callers), acts).callers
    requires Run(Init(maxSandboxes, callers), acts).callers[c].Loaded?
    ensures exists i :: LoadedAt(Init(maxSandboxes, callers), acts, c,
                                 Run(Init(maxSandboxes, callers), acts).callers[c].current, i)
  {
    var init := Init(maxSandboxes, callers);
    var n := |acts| - 1;
    var front, a := acts[..n], acts[n];
    var current := Run(init, acts).callers[c].current;
    if a.c == c {
      assert LoadedAt(init, acts, c, current, n);
    } else {
      LoadHasWitness(maxSandboxes, callers, front, c);
      var i: nat :| LoadedAt(init, front, c, current, i);
      LoadedExtends(init, acts, c, current, i);
    }
  }

  /** The caller's last step is the load `i`, and it read a full counter. */
  ghost predicate ReadFull(s: Pool, acts: seq<Action>, c: CallerId, i: nat)
    requires IsRun(s, acts)
  {
    i < |acts| && acts[i] == Load(c) && Quiet(acts, c, i + 1) && CountAt(s, acts, i) >= s.maxSandboxes
  }

  /** Its last steps are the load `i` and the exchange `j`, and another caller's increment came between the two. */
  ghost predicate LostExchange(s: Pool, acts: seq<Action>, c: CallerId, i: nat, j: nat)
    requires IsRun(s, acts)
  {
    && i < j < |acts| && acts[i] == Load(c) && acts[j] == CompareExchange(c)
    && Quiet(acts[..j], c, i + 1) && Quiet(acts, c, j + 1)
    && OtherWinBetween(s, acts, c, i, j)
  }

  ghost predicate Explained(s: Pool, acts: seq<Action>, c: CallerId)
    requires IsRun(s, acts)
  {
    (exists i :: ReadFull(s, acts, c, i)) || (exists i, j :: LostExchange(s, acts, c, i, j))
  }

  /**
   Why a caller stands rejected: the load of this very attempt read a full counter, or its
   compare-exchange came after another caller's had taken effect since that load.
   */
  lemma {:induction false} RejectionExplained(maxSandboxes: nat, callers: set<CallerId>, acts: seq<Action>, c: CallerId)
    requires IsRun(Init(maxSandboxes, callers), acts)
    requires c in Run(Init(maxSandboxes, callers), acts).callers
    requires Run(Init(maxSandboxes, callers), acts).callers[c] == Rejected
    ensures Explained(Init(maxSandboxes, callers), acts, c)
  {
    var init := Init(maxSandboxes, callers);
    var n := |acts| - 1;
    var front, a := acts[..n], acts[n];
    RunKeepsInv(maxSandboxes, callers, front);
    if a.c != c {
      RejectionExplained(maxSandboxes, callers, front, c);
      ExplanationExtends(init, acts, c);
    } else if a.Load? {
      assert ReadFull(init, acts, c, n);
    } else {
      LoadHasWitness(maxSandboxes, callers, front, c);
      var i: nat :| LoadedAt(init, front, c, Run(init, front).callers[c].current, i);
      WinsExtend(init, acts, c, i, n);
      assert LostExchange(init, acts, c, i, n);
    }
  }

  lemma ExplanationExtends(s: Pool, acts: seq<Action>, c: CallerId)
    requires acts != [] && IsRun(s, acts) && Explained(s, acts[..|acts| - 1], c) && acts[|acts| - 1].c != c
    ensures Explained(s, acts, c)
  {
    var front := acts[..|acts| - 1];
    if i: nat :| ReadFull(s, front, c, i) {
      ReadFullExtends(s, acts, c, i);
    } else {
      var i: nat, j: nat :| LostExchange(s, front, c, i, j);
      LostExchangeExtends(s, acts, c, i, j);
    }
  }

  lemma ReadFullExtends(s: Pool, acts: seq<Action>, c: CallerId, i: nat)
    requires acts != [] && IsRun(s, acts) && ReadFull(s, acts[..|acts| - 1], c, i) && acts[|acts| - 1].c != c
    ensures ReadFull(s, acts, c, i)
  {
    assert acts[..|acts| - 1][..i] == acts[..i];
  }

  lemma LostExchangeExtends(s: Pool, acts: seq<Action>, c: CallerId, i: nat, j: nat)
    requires acts != [] && IsRun(s, acts) && LostExchange(s, acts[..|acts| - 1], c, i, j) && acts[|acts| - 1].c != c
    ensures LostExchange(s, acts, c, i, j)
  {
    assert acts[..|acts| - 1][..j] == acts[..j];
    WinsExtend(s, acts, c, i, j);
  }

  /** A caller that lost its exchange, or found the counter full, stands rejected and has changed nothing. */
  lemma LostExchangeRejects(s: Pool, a: Action)
    requires Enabled(s, a)
    requires || (a.CompareExchange? && s.callers[a.c] != Loaded(s.activeCount))
             || (a.Load? && s.activeCount >= s.maxSandboxes)
    ensures Apply(s, a) == s.(callers := s.callers[a.c := Rejected])
  {
  }

  /** And a creation error is reported by callers whose creation failed, and by no others. */
  lemma {:induction false} CreationErrorExplained(s: Pool, acts: seq<Action>, c: CallerId)
    requires IsRun(s, acts) && c in s.callers && s.callers[c] != CreationFailed
    ensures c in Run(s, acts).callers
    ensures Run(s, acts).callers[c] == CreationFailed ==>
              exists i :: 0 <= i < |acts| && acts[i] == FailCreation(c) && Quiet(acts, c, i + 1)
  {
    if acts != [] {
      var n := |acts| - 1;
      var front := acts[..n];
      CreationErrorExplained(s, front, c);
      if Run(s, acts).callers[c] == CreationFailed {
        if acts[n].c == c {
          assert acts[n] == FailCreation(c) && Quiet(acts, c, n + 1);
        } else {
          var i :| 0 <= i < |front| && front[i] == FailCreation(c) && Quiet(front, c, i + 1);
          assert acts[i] == FailCreation(c) && Quiet(acts, c, i + 1);
        }
      }
    }
  }

  /**
   A flag that is down never comes up again, so every recycled handle reports
   `is_in_use() == false` to its holder: only a handle that was never released does not.
   */
  lemma RecycledHandleLooksIdle(maxSandboxes: nat, callers: set<CallerId>, acts: seq<Action>, c: CallerId)
    requires IsRun(Init(maxSandboxes, callers), acts)
    requires c in Run(Init(maxSandboxes, callers), acts).callers
    requires Enabled(Run(Init(maxSandboxes, callers), acts), Activate(c))
    ensures var s := Run(Init(maxSandboxes, callers), acts);
            var t := Apply(s, Activate(c));
            t.callers[c].Holding? && t.callers[c].id in t.inUse &&
            (t.inUse[t.callers[c].id] <==> s.callers[c].Created?)
  {
    RunKeepsInv(maxSandboxes, callers, acts);
  }

  /** `acts[k]` is the step of a release that clears the flag of `id`. */
  ghost predicate ReleasesAt(s: Pool, acts: seq<Action>, id: SandboxId, k: nat)
    requires IsRun(s, acts)
  {
    k < |acts| && acts[k].ClearFlag? &&
    (PrefixIsRun(s, acts, k);
     var t := Run(s, acts[..k]);
     acts[k].c in t.callers && t.callers[acts[k].c] == Removed(id))
  }

  ghost predicate EverReleased(s: Pool, acts: seq<Action>, id: SandboxId)
    requires IsRun(s, acts)
  {
    exists k :: ReleasesAt(s, acts, id, k)
  }

  lemma EverReleasedSnoc(s: Pool, acts: seq<Action>, id: SandboxId)
    requires acts != [] && IsRun(s, acts)
    ensures EverReleased(s, acts, id)
       <==> EverReleased(s, acts[..|acts| - 1], id) || ReleasesAt(s, acts, id, |acts| - 1)
  {
    var n := |acts| - 1;
    var front := acts[..n];
    if k: nat :| ReleasesAt(s, front, id, k) {
      assert front[..k] == acts[..k];
      assert ReleasesAt(s, acts, id, k);
    }
    if k: nat :| ReleasesAt(s, acts, id, k) && k < n {
      assert front[..k] == acts[..k];
      assert ReleasesAt(s, front, id, k);
    }
  }

  /** In every reachable state, so while a handle is held as well, its flag is up exactly if it was never released. */
  lemma {:induction false} FlagUpIffNeverReleased(maxSandboxes: nat, callers: set<CallerId>, acts: seq<Action>,
                                                  id: SandboxId)
    requires IsRun(Init(maxSandboxes, callers), acts)
    ensures var s := Run(Init(maxSandboxes, callers), acts);
            && (id !in s.inUse ==> !EverReleased(Init(maxSandboxes, callers), acts, id))
            && (id in s.inUse ==> (s.inUse[id] <==> !EverReleased(Init(maxSandboxes, callers), acts, id)))
  {
    if acts != [] {
      var init, front, a := Init(maxSandboxes, callers), acts[..|acts| - 1], acts[|acts| - 1];
      FlagUpIffNeverReleased(maxSandboxes, callers, front, id);
      RunKeepsInv(maxSandboxes, callers, front);
      EverReleasedSnoc(init, acts, id);
      var s := Run(init, front);
      assert a.ClearFlag? ==> Owns(s.callers[a.c], s.callers[a.c].id);
    }
  }

  // ---------------------------------------------------- a caller left alone

  datatype PoolError = NoAvailableSandboxes | CreationError

  lemma RunSnoc(s: Pool, acts: seq<Action>, a: Action)
    requires IsRun(s, acts) && Enabled(Run(s, acts), a)
    ensures IsRun(s, acts + [a])
    ensures Run(s, acts + [a]) == Apply(Run(s, acts), a)
  {
    assert (acts + [a])[..|acts|] == acts;
  }

  ghost predicate Reaches(s: Pool, acts: seq<Action>, t: Pool) {
    IsRun(s, acts) && Run(s, acts) == t
  }

  lemma Move(s: Pool, acts: seq<Action>, a: Action, mid: Pool, t: Pool) returns (longer: seq<Action>)
    requires Reaches(s, acts, mid) && Enabled(mid, a) && Apply(mid, a) == t
    ensures longer == acts + [a] && Reaches(s, longer, t)
  {
    RunSnoc(s, acts, a);
    longer := acts + [a];
  }

  /** One run after another is a run. */
  lemma {:induction false} Join(s: Pool, acts: seq<Action>, mid: Pool, more: seq<Action>)
    requires Reaches(s, acts, mid) && IsRun(mid, more)
    ensures Reaches(s, acts + more, Run(mid, more))
  {
    if more == [] {
      assert acts + more == acts;
    } else {
      var front, last := more[..|more| - 1], more[|more| - 1];
      Join(s, acts, mid, front);
      var longer := Move(s, acts + front, last, Run(mid, front), Run(mid, more));
      assert acts + more == (acts + front) + [last];
    }
  }

  /** The code of the two operations, whose atomic operations are the steps above in this order. */
  class LockFreeSandboxPool {
    var queue: seq<SandboxId>
    var active: set<SandboxId>
    var inUse: map<SandboxId, bool>
    var activeCount: nat
    ghost var failures: nat
    const maxSandboxes: nat

    constructor (maxSandboxes: nat)
      ensures View(Idle) == Init(maxSandboxes, {0})
    {
      queue, active, inUse, activeCount, failures := [], {}, map[], 0, 0;
      this.maxSandboxes := maxSandboxes;
    }

    /** The pool as caller 0 sees it when nobody else is about. */
    ghost function View(pc: Pc): Pool
      reads this
    {
      Pool(queue, active, inUse, activeCount, maxSandboxes, failures, map[0 := pc])
    }

    method AcquireSandbox(newId: SandboxId, creationFails: bool)
      returns (r: Result<SandboxId, PoolError>, ghost acts: seq<Action>)
      requires newId !in inUse
      modifies this
      ensures Reaches(old(View(Idle)), acts, View(if r.Ok? then Holding(r.value)
                                                  else if r.error == CreationError then CreationFailed
                                                  else Rejected))
      ensures r == if old(queue) != [] then Ok(old(queue)[0])
                   else if old(activeCount) >= maxSandboxes then Err(NoAvailableSandboxes)
                   else if creationFails then Err(CreationError)
                   else Ok(newId)
    {
      if queue != [] {
        var id := queue[0];
        acts := SoloReuse(View(Idle), id);
        queue := queue[1..];
        active := active + {id};
        return Ok(id), acts;
      }
      acts := SoloLoad(View(Idle));
      if activeCount < maxSandboxes {
        ghost var more;
        r, more := CreateCounted(newId, creationFails);
        Join(old(View(Idle)), acts, old(View(Loaded(activeCount))), more);
        return r, acts + more;
      }
      return Err(NoAvailableSandboxes), acts;
    }

    /** The half of `AcquireSandbox` from the compare-exchange on. */
    method CreateCounted(newId: SandboxId, creationFails: bool)
      returns (r: Result<SandboxId, PoolError>, ghost acts: seq<Action>)
      requires newId !in inUse && activeCount < maxSandboxes
      modifies this
      ensures Reaches(old(View(Loaded(activeCount))), acts, View(if r.Ok? then Holding(r.value) else CreationFailed))
      ensures r == if creationFails then Err(CreationError) else Ok(newId)
    {
      acts := SoloCreation(View(Loaded(activeCount)), newId, creationFails);
      activeCount := activeCount + 1;
      if creationFails {
        failures := failures + 1;
        return Err(CreationError), acts;
      }
      inUse := inUse[newId := true];
      active := active + {newId};
      return Ok(newId), acts;
    }

    method ReleaseSandbox(id: SandboxId) returns (ghost acts: seq<Action>)
      modifies this
      ensures Reaches(old(View(Holding(id))), acts, View(Idle))
      ensures queue == old(queue) + [id] && id !in active && id in inUse && !inUse[id]
    {
      acts := SoloRelease(View(Holding(id)), id);
      active := active - {id};
      inUse := inUse[id := false];
      queue := queue + [id];
    }
  }

  lemma GotoSolo(s: Pool, from: Pc, to: Pc)
    requires s.callers == map[0 := from]
    ensures Goto(s, 0, to) == s.(callers := map[0 := to])
  {
  }

  /** The steps that take a handle from the queue, with nobody else about. */
  lemma SoloReuse(s: Pool, id: SandboxId) returns (acts: seq<Action>)
    requires s.callers == map[0 := Idle] && s.queue != [] && id == s.queue[0]
    ensures Reaches(s, acts, s.(queue := s.queue[1..], active := s.active + {id}, callers := map[0 := Holding(id)]))
  {
    var popped := s.(queue := s.queue[1..], callers := map[0 := Popped(id)]);
    GotoSolo(s.(queue := s.queue[1..]), Idle, Popped(id));
    acts := Move(s, [], Pop(0), s, popped);
    GotoSolo(popped.(active := s.active + {id}), Popped(id), Holding(id));
    acts := Move(s, acts, Activate(0), popped, popped.(active := s.active + {id}, callers := map[0 := Holding(id)]));
  }

  /** The steps up to the load of the counter, when the queue is empty. */
  lemma SoloLoad(s: Pool) returns (acts: seq<Action>)
    requires s.callers == map[0 := Idle] && s.queue == []
    ensures s.activeCount < s.maxSandboxes ==> Reaches(s, acts, s.(callers := map[0 := Loaded(s.activeCount)]))
    ensures s.activeCount >= s.maxSandboxes ==> Reaches(s, acts, s.(callers := map[0 := Rejected]))
  {
    var empty := s.(callers := map[0 := QueueEmpty]);
    GotoSolo(s, Idle, QueueEmpty);
    acts := Move(s, [], Pop(0), s, empty);
    GotoSolo(empty, QueueEmpty, Loaded(s.activeCount));
    GotoSolo(empty, QueueEmpty, Rejected);
    if s.activeCount < s.maxSandboxes {
      acts := Move(s, acts, Load(0), empty, s.(callers := map[0 := Loaded(s.activeCount)]));
    } else {
      acts := Move(s, acts, Load(0), empty, s.(callers := map[0 := Rejected]));
    }
  }

  /** The steps of a creation after its load, with nobody else about. */
  lemma SoloCreation(s: Pool, newId: SandboxId, creationFails: bool) returns (acts: seq<Action>)
    requires s.callers == map[0 := Loaded(s.activeCount)] && newId !in s.inUse
    ensures var counted := s.(activeCount := s.activeCount + 1);
            Reaches(s, acts,
                    if creationFails then counted.(failures := s.failures + 1, callers := map[0 := CreationFailed])
                    else counted.(inUse := s.inUse[newId := true], active := s.active + {newId},
                                  callers := map[0 := Holding(newId)]))
  {
    var won := s.(activeCount := s.activeCount + 1, callers := map[0 := Won]);
    GotoSolo(s.(activeCount := s.activeCount + 1), Loaded(s.activeCount), Won);
    acts := Move(s, [], CompareExchange(0), s, won);
    if creationFails {
      GotoSolo(won.(failures := s.failures + 1), Won, CreationFailed);
      acts := Move(s, acts, FailCreation(0), won,
                   won.(failures := s.failures + 1, callers := map[0 := CreationFailed]));
    } else {
      var created := won.(inUse := s.inUse[newId := true], callers := map[0 := Created(newId)]);
      GotoSolo(won.(inUse := s.inUse[newId := true]), Won, Created(newId));
      acts := Move(s, acts, Create(0, newId), won, created);
      GotoSolo(created.(active := s.active + {newId}), Created(newId), Holding(newId));
      acts := Move(s, acts, Activate(0), created,
                   created.(active := s.active + {newId}, callers := map[0 := Holding(newId)]));
    }
  }

  lemma SoloRelease(s: Pool, id: SandboxId) returns (acts: seq<Action>)
    requires s.callers == map[0 := Holding(id)]
    ensures Reaches(s, acts, s.(active := s.active - {id}, inUse := s.inUse[id := false], queue := s.queue + [id],
                                callers := map[0 := Idle]))
  {
    var removed := s.(active := s.active - {id}, callers := map[0 := Removed(id)]);
    GotoSolo(s.(active := s.active - {id}), Holding(id), Removed(id));
    acts := Move(s, [], Remove(0), s, removed);
    var cleared := removed.(inUse := s.inUse[id := false], callers := map[0 := Cleared(id)]);
    GotoSolo(removed.(inUse := s.inUse[id := false]), Removed(id), Cleared(id));
    acts := Move(s, acts, ClearFlag(0), removed, cleared);
    GotoSolo(cleared.(queue := s.queue + [id]), Cleared(id), Idle);
    acts := Move(s, acts, Push(0), cleared, cleared.(queue := s.queue + [id], callers := map[0 := Idle]));
  }

  /** And such runs exist: whoever acquires, releases and acquires again holds a handle whose flag is down. */
  lemma RecycledHandleIsHeld(maxSandboxes: nat, id: SandboxId) returns (acts: seq<Action>)
    requires maxSandboxes > 0
    ensures var init := Init(maxSandboxes, {0});
            && IsRun(init, acts)
            && Run(init, acts) == Pool([], {id}, map[id := false], 1, maxSandboxes, 0, map[0 := Holding(id)])
  {
    var init := Init(maxSandboxes, {0});
    assert init.callers == map[0 := Idle];
    var loaded := init.(callers := map[0 := Loaded(0)]);
    var held := loaded.(activeCount := 1, inUse := map[id := true], active := {id}, callers := map[0 := Holding(id)]);
    var idle := held.(active := {}, inUse := map[id := false], queue := [id], callers := map[0 := Idle]);
    acts := SoloLoad(init);
    var more := SoloCreation(loaded, id, false);
    Join(init, acts, loaded, more);
    acts := acts + more;
    assert {id} - {id} == {} && map[id := true][id := false] == map[id := false];
    more := SoloRelease(held, id);
    Join(init, acts, held, more);
    acts := acts + more;
    more := SoloReuse(idle, id);
    Join(init, acts, idle, more);
    acts := acts + more;
  }
}
