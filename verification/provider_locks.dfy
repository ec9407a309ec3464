/**
 Lock ordering of the provider commands. Each takes one or two provider locks in name order, and
 the config lock only for the duration of a configuration update, while holding those.
 */
module ProviderLocks {
  import opened Basics

  datatype Lock = ProviderLock(context: string, name: string) | ConfigLock

  /** The order every command acquires in: provider locks by context and name, then the config lock. */
  predicate Before(a: Lock, b: Lock)
  {
    match (a, b)
    case (ProviderLock(c, n), ProviderLock(d, m)) => Less(c, d) || (c == d && Less(n, m))
    case (ProviderLock(_, _), ConfigLock) => true
    case (ConfigLock, _) => false
  }

  lemma BeforeIsStrictOrder(a: Lock, b: Lock, c: Lock)
    ensures !Before(a, a)
    ensures Before(a, b) && Before(b, c) ==> Before(a, c)
  {
    if a.ProviderLock? {
      LessIsTotal(a.context, a.context);
      LessIsTotal(a.name, a.name);
      if b.ProviderLock? && c.ProviderLock? && Before(a, b) && Before(b, c) {
        if Less(a.context, b.context) && Less(b.context, c.context) { LessIsTransitive(a.context, b.context, c.context); }
        if Less(a.name, b.name) && Less(b.name, c.name) { LessIsTransitive(a.name, b.name, c.name); }
      }
    }
  }

  // ----- Commands -----

  datatype Action = Acquire(lock: Lock) | Release(lock: Lock)

  /** `updates` counts the configuration updates the command makes. An empty `from` means none. */
  datatype Command =
    | Add(context: string, name: string, from: string, updates: nat)
    | Rename(context: string, oldName: string, newName: string, updates: nat)
    | Use(context: string, name: string)
    | Delete(context: string, name: string, updates: nat)

  /** Renaming a provider to its own name is rejected before any lock is taken. */
  predicate Accepted(c: Command) { c.Rename? ==> c.oldName != c.newName }

  function SortedPair(a: string, b: string): seq<string> { if Less(b, a) then [b, a] else [a, b] }

  /** The provider names a command locks: equal names are locked once. */
  function Names(c: Command): seq<string>
  {
    match c
    case Add(_, name, from, _) => if from != "" && from != name then SortedPair(name, from) else [name]
    case Rename(_, oldName, newName, _) => SortedPair(oldName, newName)
    case Use(_, name) => [name]
    case Delete(_, name, _) => [name]
  }

  function Updates(c: Command): nat { if c.Use? then 1 else c.updates }

  function Acquires(context: string, names: seq<string>): seq<Action>
  {
    seq(|names|, i requires 0 <= i < |names| => Acquire(ProviderLock(context, names[i])))
  }

  function Releases(held: seq<Lock>): seq<Action>
  {
    seq(|held|, i requires 0 <= i < |held| => Release(held[i]))
  }

  function Locks(context: string, names: seq<string>): seq<Lock>
  {
    seq(|names|, i requires 0 <= i < |names| => ProviderLock(context, names[i]))
  }

  function Set(held: seq<Lock>): set<Lock> { set l | l in held }

  predicate Distinct(held: seq<Lock>)
  {
    forall i, j :: 0 <= i < j < |held| ==> held[i] != held[j]
  }

  /** n read-modify-write cycles, then the rest. */
  function WithUpdates(n: nat, rest: seq<Action>): seq<Action>
  {
    if n == 0 then rest else [Acquire(ConfigLock), Release(ConfigLock)] + WithUpdates(n - 1, rest)
  }

  /** A rename releases its two locks in reverse, the others in acquisition order. */
  function ReleaseOrder(c: Command): seq<Lock>
  {
    var locks := Locks(c.context, Names(c));
    if c.Rename? then [locks[1], locks[0]] else locks
  }

  /** The lock operations of a command in which nothing fails. */
  function Program(c: Command): seq<Action>
  {
    Acquires(c.context, Names(c)) + WithUpdates(Updates(c), Releases(ReleaseOrder(c)))
  }

  /** From `held`, every acquisition is of a lock after all held ones, and in the end none is held. */
  predicate Ordered(held: set<Lock>, todo: seq<Action>)
    decreases todo
  {
    if todo == [] then held == {}
    else match todo[0]
      case Acquire(l) => (forall h :: h in held ==> Before(h, l)) && Ordered(held + {l}, todo[1..])
      case Release(l) => l in held && Ordered(held - {l}, todo[1..])
  }

  lemma {:induction false} ReleasesAreOrdered(held: seq<Lock>)
    requires Distinct(held)
    ensures Ordered(Set(held), Releases(held))
  {
    if held != [] {
      ReleasesAreOrdered(held[1..]);
      assert Releases(held)[1..] == Releases(held[1..]);
      assert Set(held) - {held[0]} == Set(held[1..]);
    }
  }

  lemma {:induction false} UpdatesAreOrdered(held: set<Lock>, n: nat, rest: seq<Action>)
    requires (forall h :: h in held ==> h.ProviderLock?) && Ordered(held, rest)
    ensures Ordered(held, WithUpdates(n, rest))
  {
    if n > 0 {
      UpdatesAreOrdered(held, n - 1, rest);
      var w := WithUpdates(n, rest);
      assert w[1..][1..] == WithUpdates(n - 1, rest);
      assert held + {ConfigLock} - {ConfigLock} == held;
      assert w[1..][0] == Release(ConfigLock);
    }
  }

  lemma SortedPairIsSorted(a: string, b: string)
    requires a != b
    ensures var p := SortedPair(a, b); |p| == 2 && Less(p[0], p[1]) && multiset(p) == multiset{a, b}
  {
    LessIsTotal(a, b);
  }

  lemma {:induction false} AcquiresAreOrdered(held: set<Lock>, context: string, names: seq<string>, rest: seq<Action>)
    requires forall h, i :: h in held && 0 <= i < |names| ==> Before(h, ProviderLock(context, names[i]))
    requires forall i, j :: 0 <= i < j < |names| ==> Less(names[i], names[j])
    requires Ordered(held + Set(Locks(context, names)), rest)
    ensures Ordered(held, Acquires(context, names) + rest)
    decreases names
  {
    var locks := Locks(context, names);
    if names == [] {
      assert Acquires(context, names) + rest == rest && held + Set(locks) == held;
    } else {
      assert Locks(context, names[1..]) == locks[1..];
      assert held + {locks[0]} + Set(locks[1..]) == held + Set(locks);
      AcquiresAreOrdered(held + {locks[0]}, context, names[1..], rest);
      assert (Acquires(context, names) + rest)[1..] == Acquires(context, names[1..]) + rest;
    }
  }

  lemma NamesAreSorted(c: Command)
    requires Accepted(c)
    ensures 1 <= |Names(c)| <= 2 && (c.Rename? ==> |Names(c)| == 2)
    ensures |Names(c)| == 2 ==> Less(Names(c)[0], Names(c)[1]) && Names(c)[0] != Names(c)[1]
  {
    if |Names(c)| == 2 {
      if c.Add? { SortedPairIsSorted(c.name, c.from); } else { SortedPairIsSorted(c.oldName, c.newName); }
      LessIsTotal(Names(c)[0], Names(c)[1]);
    }
  }

  /** The providers a command reads or writes: adding may copy an existing one. */
  function Touched(c: Command): set<string>
  {
    match c
    case Add(_, name, from, _) => if from == "" then {name} else {name, from}
    case Rename(_, oldName, newName, _) => {oldName, newName}
    case Use(_, name) => {name}
    case Delete(_, name, _) => {name}
  }

  /** Each of them is locked, once, and no other provider is. */
  lemma NamesAreTouched(c: Command)
    requires Accepted(c)
    ensures (set n | n in Names(c)) == Touched(c) && |Names(c)| == |Touched(c)|
    ensures Set(Locks(c.context, Names(c))) == set n | n in Touched(c) :: ProviderLock(c.context, n)
  {
    NamesAreSorted(c);
    var names := Names(c);
    assert forall n | n in names :: n == names[0] || (|names| == 2 && n == names[1]);
    LocksOfNames(c.context, names);
    assert (set n | n in names) == Touched(c);
  }

  lemma LocksOfNames(context: string, names: seq<string>)
    ensures Set(Locks(context, names)) == set n | n in names :: ProviderLock(context, n)
  {
    forall l ensures l in Locks(context, names) <==> exists n :: n in names && l == ProviderLock(context, n) {
      if l in Locks(context, names) {
        var k :| 0 <= k < |names| && Locks(context, names)[k] == l;
        assert names[k] in names;
      }
      if n :| n in names && l == ProviderLock(context, n) {
        var k :| 0 <= k < |names| && names[k] == n;
        assert Locks(context, names)[k] == l;
      }
    }
  }

  /** The locks held after some operations. */
  function Held(held: set<Lock>, done: seq<Action>): set<Lock>
    decreases done
  {
    if done == [] then held
    else match done[0] case Acquire(l) => Held(held + {l}, done[1..]) case Release(l) => Held(held - {l}, done[1..])
  }

  lemma {:induction false} HeldAppends(held: set<Lock>, a: seq<Action>, b: seq<Action>)
    ensures Held(held, a + b) == Held(Held(held, a), b)
    decreases a
  {
    if a == [] {
      assert a + b == b;
    } else {
      assert (a + b)[1..] == a[1..] + b;
      HeldAppends(if a[0].Acquire? then held + {a[0].lock} else held - {a[0].lock}, a[1..], b);
    }
  }

  lemma {:induction false} AcquiresHold(held: set<Lock>, context: string, names: seq<string>)
    ensures Held(held, Acquires(context, names)) == held + Set(Locks(context, names))
    decreases names
  {
    if names != [] {
      assert Acquires(context, names)[1..] == Acquires(context, names[1..]);
      assert Locks(context, names) == [ProviderLock(context, names[0])] + Locks(context, names[1..]);
      AcquiresHold(held + {ProviderLock(context, names[0])}, context, names[1..]);
    }
  }

  lemma {:induction false} UpdateLeavesLocks(held: set<Lock>, n: nat, order: seq<Lock>, k: nat)
    requires ConfigLock !in held && k < |WithUpdates(n, Releases(order))|
    requires WithUpdates(n, Releases(order))[k] == Acquire(ConfigLock)
    ensures Held(held, WithUpdates(n, Releases(order))[..k]) == held
  {
    if n > 0 && k > 1 {
      var w, rest := WithUpdates(n, Releases(order)), WithUpdates(n - 1, Releases(order));
      assert w[k] == rest[k - 2];
      UpdateLeavesLocks(held, n - 1, order, k - 2);
      assert w[..k] == [Acquire(ConfigLock), Release(ConfigLock)] + rest[..k - 2];
      HeldAppends(held, [Acquire(ConfigLock), Release(ConfigLock)], rest[..k - 2]);
      assert [Acquire(ConfigLock), Release(ConfigLock)][1..] == [Release(ConfigLock)] && [Release(ConfigLock)][1..] == [];
      assert held + {ConfigLock} - {ConfigLock} == held;
    }
  }

  /** Whenever a command updates the configuration it holds the locks of all the providers it touches. */
  lemma UpdatesAreProtected(c: Command, k: nat)
    requires Accepted(c) && k < |Program(c)| && Program(c)[k] == Acquire(ConfigLock)
    ensures Held({}, Program(c)[..k]) == set n | n in Touched(c) :: ProviderLock(c.context, n)
  {
    var a, w := Acquires(c.context, Names(c)), WithUpdates(Updates(c), Releases(ReleaseOrder(c)));
    assert forall j | 0 <= j < |a| :: Program(c)[j] == a[j] && a[j] != Acquire(ConfigLock);
    assert Program(c)[..k] == a + w[..k - |a|] && w[k - |a|] == Acquire(ConfigLock);
    HeldAppends({}, a, w[..k - |a|]);
    AcquiresHold({}, c.context, Names(c));
    NamesAreTouched(c);
    UpdateLeavesLocks(Set(Locks(c.context, Names(c))), Updates(c), ReleaseOrder(c), k - |a|);
  }

  /** It does so as often as it updates. */
  lemma {:induction false} UpdatesAreMade(n: nat, rest: seq<Action>)
    ensures multiset(WithUpdates(n, rest))[Acquire(ConfigLock)] == n + multiset(rest)[Acquire(ConfigLock)]
  {
    if n > 0 { UpdatesAreMade(n - 1, rest); }
  }

  lemma ReleasesEveryLock(c: Command)
    requires Accepted(c)
    ensures Distinct(ReleaseOrder(c)) && Set(ReleaseOrder(c)) == Set(Locks(c.context, Names(c)))
  {
    NamesAreSorted(c);
    var locks := Locks(c.context, Names(c));
    if c.Rename? {
      var order := ReleaseOrder(c);
      assert order[0] == locks[1] && order[1] == locks[0];
      forall l ensures l in order <==> l in locks { }
    }
  }

  /** Every accepted command acquires in order, whatever names it is given. */
  lemma ProgramIsOrdered(c: Command)
    requires Accepted(c)
    ensures Ordered({}, Program(c))
  {
    NamesAreSorted(c);
    ReleasesEveryLock(c);
    ReleasesAreOrdered(ReleaseOrder(c));
    var held := Set(ReleaseOrder(c));
    UpdatesAreOrdered(held, Updates(c), Releases(ReleaseOrder(c)));
    assert {} + held == held;
    AcquiresAreOrdered({}, c.context, Names(c), WithUpdates(Updates(c), Releases(ReleaseOrder(c))));
  }

  // ----- Concurrent commands -----

  /** A running command: the locks it holds, in acquisition order, and the operations ahead of it. */
  datatype Process = Process(held: seq<Lock>, todo: seq<Action>)

  type System = seq<Process>

  predicate Free(s: System, l: Lock)
  {
    forall p :: 0 <= p < |s| ==> l !in s[p].held
  }

  function Without(held: seq<Lock>, l: Lock): seq<Lock>
  {
    if held == [] then [] else if held[0] == l then held[1..] else [held[0]] + Without(held[1..], l)
  }

  /** Process p can go on: it releases a lock, or acquires one nobody holds. */
  predicate CanGo(s: System, p: nat)
    requires p < |s|
  {
    s[p].todo != [] && (s[p].todo[0].Release? || Free(s, s[p].todo[0].lock))
  }

  function Go(q: Process): Process
    requires q.todo != []
  {
    match q.todo[0]
    case Acquire(l) => Process(q.held + [l], q.todo[1..])
    case Release(l) => Process(Without(q.held, l), q.todo[1..])
  }

  /** Something failed, an acquisition for instance: all that is left is releasing what is held. */
  ghost predicate GivesUp(q: Process, q': Process, order: seq<Lock>)
  {
    q'.held == q.held && Distinct(order) && Set(order) == Set(q.held) && q'.todo == Releases(order)
  }

  ghost predicate Next(s: System, s': System, p: nat)
  {
    && p < |s| == |s'|
    && (forall q :: 0 <= q < |s| && q != p ==> s'[q] == s[q])
    && (|| (CanGo(s, p) && s'[p] == Go(s[p]))
        || exists order :: GivesUp(s[p], s'[p], order))
  }

  ghost predicate Starts(s: System, commands: seq<Command>)
  {
    |s| == |commands| &&
    forall p :: 0 <= p < |s| ==> Accepted(commands[p]) && s[p] == Process([], Program(commands[p]))
  }

  /** Every process acquires in order, and no lock is held twice. */
  ghost predicate Inv(s: System)
  {
    && (forall p :: 0 <= p < |s| ==> Distinct(s[p].held) && Ordered(Set(s[p].held), s[p].todo))
    && (forall p, q, l :: 0 <= p < |s| && 0 <= q < |s| && p != q && l in s[p].held ==> l !in s[q].held)
  }

  lemma {:induction false} WithoutMembers(held: seq<Lock>, l: Lock, x: Lock)
    requires Distinct(held)
    ensures x in Without(held, l) <==> x in held && x != l
  {
    if held != [] && held[0] != l { WithoutMembers(held[1..], l, x); }
  }

  lemma {:induction false} WithoutIsDistinct(held: seq<Lock>, l: Lock)
    requires Distinct(held)
    ensures Distinct(Without(held, l)) && Set(Without(held, l)) == Set(held) - {l}
  {
    if held != [] && held[0] != l {
      WithoutIsDistinct(held[1..], l);
      WithoutMembers(held[1..], l, held[0]);
    }
    forall x ensures x in Without(held, l) <==> x in held && x != l { WithoutMembers(held, l, x); }
  }

  lemma NextKeepsInv(s: System, s': System, p: nat)
    requires Inv(s) && Next(s, s', p)
    ensures Inv(s')
  {
    var q := s[p];
    assert Ordered(Set(q.held), q.todo);
    if order :| GivesUp(q, s'[p], order) {
      ReleasesAreOrdered(order);
    } else {
      match q.todo[0]
      case Acquire(l) =>
        BeforeIsStrictOrder(l, l, l);
        assert l in q.held ==> l in Set(q.held);
        assert Set(q.held + [l]) == Set(q.held) + {l};
      case Release(l) =>
        WithoutIsDistinct(q.held, l);
        assert forall x :: x in Without(q.held, l) ==> x in Set(Without(q.held, l));
    }
  }

  /** All unfinished processes wait for a lock somebody holds. */
  predicate Deadlocked(s: System)
  {
    && (exists p :: 0 <= p < |s| && s[p].todo != [])
    && forall p :: 0 <= p < |s| ==> !CanGo(s, p)
  }

  predicate Waiting(s: System, p: nat) { p < |s| && s[p].todo != [] && s[p].todo[0].Acquire? }

  /** Among the waiting processes one waits for a lock after which no other wants one. */
  lemma {:induction false} LastWaiter(s: System, n: nat) returns (p: nat)
    requires n <= |s| && exists q :: 0 <= q < n && Waiting(s, q)
    ensures p < n && Waiting(s, p)
    ensures forall q :: 0 <= q < n && Waiting(s, q) ==> !Before(s[p].todo[0].lock, s[q].todo[0].lock)
  {
    if exists q :: 0 <= q < n - 1 && Waiting(s, q) {
      p := LastWaiter(s, n - 1);
      if Waiting(s, n - 1) && Before(s[p].todo[0].lock, s[n - 1].todo[0].lock) {
        var old_p := p;
        p := n - 1;
        forall q | 0 <= q < n && Waiting(s, q) ensures !Before(s[p].todo[0].lock, s[q].todo[0].lock) {
          BeforeIsStrictOrder(s[old_p].todo[0].lock, s[p].todo[0].lock, s[q].todo[0].lock);
          BeforeIsStrictOrder(s[p].todo[0].lock, s[p].todo[0].lock, s[p].todo[0].lock);
        }
      }
    } else {
      p := n - 1;
      BeforeIsStrictOrder(s[p].todo[0].lock, s[p].todo[0].lock, s[p].todo[0].lock);
    }
  }

  lemma HolderWaitsLater(s: System, owner: nat, l: Lock)
    requires Inv(s) && owner < |s| && l in s[owner].held
    ensures s[owner].todo != []
    ensures Waiting(s, owner) ==> Before(l, s[owner].todo[0].lock)
  {
    assert l in Set(s[owner].held);
    assert Ordered(Set(s[owner].held), s[owner].todo);
  }

  lemma InvMeansNoDeadlock(s: System)
    requires Inv(s)
    ensures !Deadlocked(s)
  {
    if p :| 0 <= p < |s| && s[p].todo != [] && s[p].todo[0].Release? {
      assert CanGo(s, p);
    } else if p :| 0 <= p < |s| && s[p].todo != [] {
      assert Waiting(s, p);
      var last := LastWaiter(s, |s|);
      var wanted := s[last].todo[0].lock;
      forall owner | 0 <= owner < |s| && wanted in s[owner].held ensures false {
        HolderWaitsLater(s, owner, wanted);
      }
      assert CanGo(s, last);
    }
  }

  ghost predicate SomeoneMoves(s: System, s': System) { exists p :: Next(s, s', p) }

  lemma StartsOk(commands: seq<Command>, s: System)
    requires Starts(s, commands)
    ensures Inv(s)
  {
    assert Set([]) == {};
    forall p | 0 <= p < |s| ensures Ordered(Set(s[p].held), s[p].todo) {
      ProgramIsOrdered(commands[p]);
    }
  }

  /**
   Any number of add, rename, use and delete commands, interleaved in any way and with any
   acquisition failing, never reach a state in which all the unfinished ones are blocked.
   */
  lemma {:induction false} NeverDeadlocked(commands: seq<Command>, run: seq<System>, n: nat)
    requires n < |run| && Starts(run[0], commands)
    requires forall m :: 0 <= m < |run| - 1 ==> SomeoneMoves(run[m], run[m + 1])
    ensures Inv(run[n]) && !Deadlocked(run[n])
  {
    if n == 0 {
      StartsOk(commands, run[0]);
    } else {
      NeverDeadlocked(commands, run, n - 1);
      assert SomeoneMoves(run[n - 1], run[n - 1 + 1]);
      var p :| Next(run[n - 1], run[n], p);
      NextKeepsInv(run[n - 1], run[n], p);
    }
    InvMeansNoDeadlock(run[n]);
  }

  // ----- Acquiring the locks -----

  /** The locks of one command, and the operations it has performed on them. `faults` counts failures. */
  class Locker {
    var held: seq<Lock>
    ghost var faults: nat
    ghost var log: seq<Action>

    method LockProvider(context: string, name: string) returns (ok: bool)
      modifies this
      ensures if ok then held == old(held) + [ProviderLock(context, name)] && log == old(log) + [Acquire(ProviderLock(context, name))]
              else held == old(held) && log == old(log)
      ensures faults == old(faults) + (if ok then 0 else 1)
    {
      ok := *;
      faults := faults + (if ok then 0 else 1);
      if ok {
        held := held + [ProviderLock(context, name)];
        log := log + [Acquire(ProviderLock(context, name))];
      }
    }

    method Unlock(l: Lock)
      modifies this
      ensures held == Without(old(held), l) && log == old(log) + [Release(l)] && faults == old(faults)
    {
      held := Without(held, l);
      log := log + [Release(l)];
    }

    /** Acquires in name order; a failure releases every lock acquired so far. */
    method LockProviders(context: string, name: string, from: string) returns (ok: bool, ghost acquired: nat)
      requires held == []
      modifies this
      ensures ok ==> held == Locks(context, Names(Add(context, name, from, 0)))
                     && log == old(log) + Acquires(context, Names(Add(context, name, from, 0)))
                     && Set(held) == {ProviderLock(context, name)} + if from == "" then {} else {ProviderLock(context, from)}
      ensures !ok ==> held == [] && acquired < |Names(Add(context, name, from, 0))|
      ensures !ok ==> log == old(log) + GivenUp(context, Names(Add(context, name, from, 0))[..acquired])
      ensures ok <==> faults == old(faults)
    {
      var names := if from != "" && from != name then SortedPair(name, from) else [name];
      var k: nat := 0;
      acquired := 0;
      while k < |names|
        invariant faults == old(faults)
        invariant k == acquired <= |names| && held == Locks(context, names[..k]) && log == old(log) + Acquires(context, names[..k])
      {
        ok := LockProvider(context, names[k]);
        if !ok {
          ReleaseAll(held);
          assert log == old(log) + GivenUp(context, names[..k]);
          return;
        }
        k, acquired := k + 1, acquired + 1;
      }
      ok := true;
      assert names[..k] == names;
      NamesAreTouched(Add(context, name, from, 0));
    }

    method ReleaseAll(locks: seq<Lock>)
      requires held == locks
      modifies this
      ensures held == [] && log == old(log) + Releases(locks) && faults == old(faults)
    {
      var k := 0;
      while k < |locks|
        invariant faults == old(faults)
        invariant k <= |locks| && held == locks[k..] && log == old(log) + Releases(locks[..k])
      {
        Unlock(locks[k]);
        k := k + 1;
      }
      assert locks[..k] == locks;
    }

    /** Locks both names in a stable order; a failed second lock or reload releases what was taken. */
    method LockAndReload(context: string, oldName: string, newName: string) returns (ok: bool)
      requires held == [] && oldName != newName
      modifies this
      ensures ok ==> held == Locks(context, SortedPair(oldName, newName))
                     && log == old(log) + Acquires(context, SortedPair(oldName, newName))
                     && Set(held) == {ProviderLock(context, oldName), ProviderLock(context, newName)}
      ensures !ok ==> held == []
      ensures ok <==> faults == old(faults)
    {
      var names := SortedPair(oldName, newName);
      NamesAreTouched(Rename(context, oldName, newName, 0));
      var loaded := *;
      if !loaded {
        faults := faults + 1;
        return false;
      }
      ok := LockProvider(context, names[0]);
      if !ok { return; }
      ok := LockProvider(context, names[1]);
      if !ok {
        Unlock(ProviderLock(context, names[0]));
        return;
      }
      ok := *;
      if !ok {
        faults := faults + 1;
        SortedPairIsSorted(oldName, newName);
        LessIsTotal(names[0], names[1]);
        Unlock(ProviderLock(context, names[1]));
        Unlock(ProviderLock(context, names[0]));
      }
    }
  }

  /** The operations of a command that acquires the locks of `names` and then has to give up. */
  function GivenUp(context: string, names: seq<string>): seq<Action>
  {
    Acquires(context, names) + Releases(Locks(context, names))
  }
}
