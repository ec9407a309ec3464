/** Which names a provider lookup finds, from the configured providers and the provider directories. */
module ProviderLookup {
  import opened Basics
  import opened OptionPaths

  /** Reading a directory gives every entry once, sorted by name. */
  predicate Listing(entries: seq<string>, dirs: map<string, string>)
  {
    && (forall e | e in entries :: e in dirs)
    && (forall e | e in dirs :: e in entries)
    && Ascending(entries)
  }

  predicate Ascending(s: seq<string>)
  {
    forall a, b :: 0 <= a < b < |s| ==> Less(s[a], s[b])
  }

  /** A directory whose own name is known already is not opened. */
  predicate Skipped(e: string, known: set<string>)
  {
    e in known || HasPrefix(e, ".DS_Store")
  }

  /** Some directory that is opened gives the name. */
  ghost predicate Given(known: set<string>, dirs: map<string, string>, entries: seq<string>, name: string)
  {
    exists e | e in entries && e in dirs :: !Skipped(e, known) && dirs[e] == name
  }

  /** The names known after the directories in `entries`, each under the name that its provider.json gives. */
  function Known(known: set<string>, dirs: map<string, string>, entries: seq<string>): (r: set<string>)
    requires forall e :: e in entries ==> e in dirs
    ensures known <= r <= known + dirs.Values
    ensures forall n | n in r - known :: Given(known, dirs, entries, n)
  {
    if entries == [] then known
    else
      var before := Known(known, dirs, entries[..|entries| - 1]);
      var e := entries[|entries| - 1];
      assert entries == entries[..|entries| - 1] + [e];
      assert forall n :: Given(known, dirs, entries[..|entries| - 1], n) ==> Given(known, dirs, entries, n);
      if Skipped(e, before) then before else before + {dirs[e]}
  }

  /** What a lookup without failures finds: a configured provider, or one that some directory gives. */
  ghost predicate Found(configured: set<string>, dirs: map<string, string>, name: string)
  {
    exists entries :: Listing(entries, dirs) && name in Known(configured * dirs.Keys, dirs, entries)
  }

  /** What a lookup can find at all, even when it fails to read some directories. */
  predicate Findable(configured: set<string>, dirs: map<string, string>, name: string)
  {
    (name in configured && name in dirs) || name in dirs.Values
  }

  lemma FoundIsFindable(configured: set<string>, dirs: map<string, string>, name: string)
    requires Found(configured, dirs, name)
    ensures Findable(configured, dirs, name)
  {
    var entries :| Listing(entries, dirs) && name in Known(configured * dirs.Keys, dirs, entries);
  }

  /** The name that a configured directory gives inside does not count, nor does that of a hidden one. */
  lemma FoundIsGiven(configured: set<string>, dirs: map<string, string>, name: string)
    requires Found(configured, dirs, name)
    ensures (name in configured && name in dirs)
            || exists e :: e in dirs && e !in configured && !HasPrefix(e, ".DS_Store") && dirs[e] == name
  {
    var entries :| Listing(entries, dirs) && name in Known(configured * dirs.Keys, dirs, entries);
    if !(name in configured && name in dirs) {
      assert Given(configured * dirs.Keys, dirs, entries, name);
    }
  }

  /** There is only one listing, so it decides. */
  lemma FoundByListing(configured: set<string>, dirs: map<string, string>, name: string, entries: seq<string>)
    requires Listing(entries, dirs)
    ensures Found(configured, dirs, name) <==> name in Known(configured * dirs.Keys, dirs, entries)
  {
    if Found(configured, dirs, name) {
      var other :| Listing(other, dirs) && name in Known(configured * dirs.Keys, dirs, other);
      AscendingAgree(entries, other);
    }
  }

  lemma {:induction false} AscendingAgree(s: seq<string>, t: seq<string>)
    requires Ascending(s) && Ascending(t) && forall e :: e in s <==> e in t
    ensures s == t
  {
    assert (s != [] ==> s[0] in t) && (t != [] ==> t[0] in s);
    if s != [] {
      SameHead(s, t);
      forall e ensures e in s[1..] <==> e in t[1..] {
        TailHasNoHead(s, e);
        TailHasNoHead(t, e);
      }
      AscendingAgree(s[1..], t[1..]);
      assert s == [s[0]] + s[1..] && t == [t[0]] + t[1..];
    }
  }

  lemma SameHead(s: seq<string>, t: seq<string>)
    requires Ascending(s) && Ascending(t) && s != [] && t != [] && s[0] in t && t[0] in s
    ensures s[0] == t[0]
  {
    var a :| 0 <= a < |s| && s[a] == t[0];
    var b :| 0 <= b < |t| && t[b] == s[0];
    LessIsTotal(s[0], t[0]);
  }

  lemma TailHasNoHead(s: seq<string>, e: string)
    requires Ascending(s) && s != []
    ensures e in s[1..] <==> e in s && e != s[0]
  {
    assert s == [s[0]] + s[1..];
    if e in s[1..] {
      var a :| 0 <= a < |s[1..]| && s[1..][a] == e;
      assert Less(s[0], s[a + 1]);
      LessIsTotal(s[0], s[a + 1]);
    }
  }
}
