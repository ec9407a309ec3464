/** Result types and the byte order on strings that several components share. */
module Basics {

  datatype Option<+T> = None | Some(value: T)

  datatype Result<+T, +E> = Ok(value: T) | Err(error: E)

  /** Go's `<` on strings: lexicographic, shorter prefixes first. */
  predicate Less(a: string, b: string)
  {
    if b == "" then false
    else if a == "" then true
    else a[0] < b[0] || (a[0] == b[0] && Less(a[1..], b[1..]))
  }

  /** Less is a strict total order. */
  lemma {:induction false} LessIsTotal(a: string, b: string)
    ensures !(Less(a, b) && Less(b, a))
    ensures Less(a, b) || Less(b, a) || a == b
    ensures a == b ==> !Less(a, b)
  {
    if a != "" && b != "" {
      LessIsTotal(a[1..], b[1..]);
      assert a == [a[0]] + a[1..] && b == [b[0]] + b[1..];
    }
  }

  lemma {:induction false} LessIsTransitive(a: string, b: string, c: string)
    requires Less(a, b) && Less(b, c)
    ensures Less(a, c)
  {
    if a != "" && a[0] == b[0] == c[0] {
      LessIsTransitive(a[1..], b[1..], c[1..]);
    }
  }

  /** A number as Go's %d prints it. */
  function Decimal(n: nat): string
  {
    var digit := ["0123456789"[n % 10]];
    if n < 10 then digit else Decimal(n / 10) + digit
  }

  predicate Digits(s: string) { s != "" && forall k | 0 <= k < |s| :: '0' <= s[k] <= '9' }

  /** The number that decimal digits denote. */
  function Denoted(s: string): nat
    requires forall k | 0 <= k < |s| :: '0' <= s[k] <= '9'
  {
    if s == "" then 0 else 10 * Denoted(s[..|s| - 1]) + (s[|s| - 1] as int - '0' as int)
  }

  /** Printing a number gives its digits, without leading zeros. */
  lemma {:induction false} DecimalDenotes(n: nat)
    ensures Digits(Decimal(n)) && Denoted(Decimal(n)) == n
    ensures |Decimal(n)| > 1 ==> Decimal(n)[0] != '0'
    ensures n > 0 ==> Decimal(n)[0] != '0'
  {
    var d := "0123456789"[n % 10];
    assert d as int - '0' as int == n % 10;
    if n < 10 {
      assert Decimal(n) == [d] && [d][..0] == "";
    } else {
      DecimalDenotes(n / 10);
      var s := Decimal(n);
      assert s == Decimal(n / 10) + [d] && s[..|s| - 1] == Decimal(n / 10);
    }
  }

  /** The position of the first occurrence of `c`, or |s|. */
  function IndexOf<T(==)>(s: seq<T>, c: T): (i: nat)
    ensures i <= |s|
    ensures i < |s| ==> s[i] == c
    ensures c !in s[..i]
    ensures i == |s| <==> c !in s
  {
    if s == [] then 0
    else if s[0] == c then 0
    else
      var i := 1 + IndexOf(s[1..], c);
      assert s[..i] == [s[0]] + s[1..][..i - 1];
      i
  }

  lemma {:induction false} IndexIsFirst<T>(s: seq<T>, c: T, i: nat)
    requires i < |s| && s[i] == c && c !in s[..i]
    ensures IndexOf(s, c) == i
  {
    if i > 0 {
      assert s[0] in s[..i] && s[..i][1..] == s[1..][..i - 1];
      IndexIsFirst(s[1..], c, i - 1);
    }
  }

  /** Cutting at the first occurrence loses only the separator. */
  lemma CutJoins<T>(s: seq<T>, c: T)
    requires c in s
    ensures var i := IndexOf(s, c); s == s[..i] + [c] + s[i + 1..]
  {
  }

  lemma CutsAt<T>(prefix: seq<T>, c: T, rest: seq<T>)
    requires c !in prefix
    ensures var s := prefix + [c] + rest;
            IndexOf(s, c) == |prefix| && s[..|prefix|] == prefix && s[|prefix| + 1..] == rest
  {
    var s := prefix + [c] + rest;
    assert s[..|prefix|] == prefix;
    IndexIsFirst(s, c, |prefix|);
  }

  lemma ConcatAssociates<T>(a: seq<T>, b: seq<T>, c: seq<T>)
    ensures a + (b + c) == a + b + c
  {
  }
}
