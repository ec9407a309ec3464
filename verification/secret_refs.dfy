/** Secret references: how a binding string names a secret and its source. */
module SecretRefs {
  import opened Basics

  const LOCAL_SOURCE := "local"

  /** The source instance and name a binding refers to. */
  datatype Ref = Ref(typeName: string, source: string, name: string)

  predicate IsSpace(c: char)
  {
    || c in "\t\n\r "
    || c in ['\U{000B}', '\U{000C}', '\U{0085}', '\U{00A0}', '\U{1680}', '\U{2028}', '\U{2029}']
    || c in ['\U{202F}', '\U{205F}', '\U{3000}']
    || '\U{2000}' <= c <= '\U{200A}'
  }

  predicate IsLetter(c: char) { 'a' <= c <= 'z' || 'A' <= c <= 'Z' }

  predicate IsDigit(c: char) { '0' <= c <= '9' }

  /** A stored name: a letter or underscore, then letters, digits or underscores. */
  predicate ValidName(s: string)
  {
    && s != ""
    && (IsLetter(s[0]) || s[0] == '_')
    && forall i :: 0 <= i < |s| ==> IsLetter(s[i]) || IsDigit(s[i]) || s[i] == '_'
  }

  predicate ValidSourceName(s: string)
  {
    && s != ""
    && IsLetter(s[0])
    && forall i :: 0 <= i < |s| ==> IsLetter(s[i]) || IsDigit(s[i]) || s[i] in "_-"
  }

  function TrimLeft(s: string): string
  {
    if s != "" && IsSpace(s[0]) then TrimLeft(s[1..]) else s
  }

  function TrimRight(s: string): string
  {
    if s != "" && IsSpace(s[|s| - 1]) then TrimRight(s[..|s| - 1]) else s
  }

  function Trim(s: string): string { TrimRight(TrimLeft(s)) }

  function ParseRef(value: string): Option<Ref>
  {
    var v := Trim(value);
    if v == "" then None
    else if ':' !in v then
      if ValidName(v) then Some(Ref(LOCAL_SOURCE, LOCAL_SOURCE, v)) else None
    else ParseQualified(v)
  }

  function ParseQualified(v: string): Option<Ref>
    requires ':' in v
  {
    var colon := IndexOf(v, ':');
    var rest := v[colon + 1..];
    var slash := IndexOf(rest, '/');
    if colon == 0 || rest == "" || slash == |rest| then None
    else
      var source, name := rest[..slash], rest[slash + 1..];
      if ValidSourceName(source) && ValidName(name)
      then Some(Ref(v[..colon], source, name))
      else None
  }

  /** The canonical spelling of a reference. */
  function RefString(r: Ref): string
  {
    if r.source == LOCAL_SOURCE && (r.typeName == "" || r.typeName == LOCAL_SOURCE)
    then r.name
    else r.typeName + ":" + r.source + "/" + r.name
  }

  lemma {:induction false} TrimLeftEdges(s: string)
    ensures var t := TrimLeft(s); |t| <= |s| && (t != "" ==> !IsSpace(t[0]))
  {
    if s != "" && IsSpace(s[0]) { TrimLeftEdges(s[1..]); }
  }

  lemma {:induction false} TrimRightEdges(s: string)
    ensures var t := TrimRight(s); t <= s && (t != "" ==> !IsSpace(t[|t| - 1]))
  {
    if s != "" && IsSpace(s[|s| - 1]) { TrimRightEdges(s[..|s| - 1]); }
  }

  lemma TrimEdges(s: string)
    ensures var t := Trim(s); t != "" ==> !IsSpace(t[0]) && !IsSpace(t[|t| - 1])
  {
    TrimLeftEdges(s);
    TrimRightEdges(TrimLeft(s));
  }

  /** A qualified reference is spelled exactly as it was parsed, unless it names the local store. */
  lemma QualifiedSpelling(v: string)
    requires ':' in v && ParseQualified(v).Some?
    ensures var r := ParseQualified(v).value;
      v == r.typeName + ":" + r.source + "/" + r.name
  {
    var colon := IndexOf(v, ':');
    var rest := v[colon + 1..];
    var slash := IndexOf(rest, '/');
    CutJoins(v, ':');
    CutJoins(rest, '/');
    Rejoin(v, v[..colon], rest, rest[..slash], rest[slash + 1..]);
  }

  lemma Rejoin(v: string, typeName: string, rest: string, source: string, name: string)
    requires v == typeName + [':'] + rest && rest == source + ['/'] + name
    ensures v == typeName + ":" + source + "/" + name
  {
  }

  /** A plain name is its own canonical spelling. */
  lemma PlainName(n: string)
    requires ValidName(n)
    ensures ':' !in n && '/' !in n
    ensures ParseRef(n) == Some(Ref(LOCAL_SOURCE, LOCAL_SOURCE, n))
  {
    assert !IsSpace(n[0]) && !IsSpace(n[|n| - 1]);
    Untrimmed(n);
  }

  lemma Untrimmed(v: string)
    requires v != "" ==> !IsSpace(v[0]) && !IsSpace(v[|v| - 1])
    ensures Trim(v) == v
  {
  }

  lemma QualifiedPartsParse(v: string, typeName: string, source: string, name: string)
    requires v == typeName + [':'] + (source + ['/'] + name)
    requires typeName != "" && ':' !in typeName && ValidSourceName(source) && ValidName(name)
    ensures ':' in v && ParseQualified(v) == Some(Ref(typeName, source, name))
  {
    CutsAt(typeName, ':', source + ['/'] + name);
    CutsAt(source, '/', name);
  }

  lemma TrimmedParses(v: string)
    requires ':' in v && v != "" && !IsSpace(v[0]) && !IsSpace(v[|v| - 1])
    ensures ParseRef(v) == ParseQualified(v)
  {
    Untrimmed(v);
  }

  /** A qualified reference names its type, its source and its secret. */
  lemma QualifiedParses(v: string, typeName: string, source: string, name: string)
    requires v == typeName + [':'] + (source + ['/'] + name)
    requires typeName != "" && ':' !in typeName && !IsSpace(typeName[0])
    requires ValidSourceName(source) && ValidName(name)
    ensures ParseRef(v) == Some(Ref(typeName, source, name))
  {
    QualifiedPartsParse(v, typeName, source, name);
    Edges(v, typeName, source, name);
    NameCharIsNoSpace(name[|name| - 1]);
    TrimmedParses(v);
  }

  lemma Edges(v: string, typeName: string, source: string, name: string)
    requires v == typeName + [':'] + (source + ['/'] + name) && typeName != "" && name != ""
    ensures v != "" && v[0] == typeName[0] && v[|v| - 1] == name[|name| - 1]
  {
  }

  lemma NameCharIsNoSpace(c: char)
    requires IsLetter(c) || IsDigit(c) || c == '_'
    ensures !IsSpace(c)
  {
  }

  lemma QualifiedInverts(v: string, r: Ref)
    requires ':' in v && v != "" && !IsSpace(v[0]) && !IsSpace(v[|v| - 1])
    requires ParseQualified(v) == Some(r) && !(r.source == LOCAL_SOURCE && r.typeName == LOCAL_SOURCE)
    ensures ParseRef(RefString(r)) == Some(r)
  {
    QualifiedSpelling(v);
    assert r.typeName != "";
    assert RefString(r) == v;
    TrimmedParses(v);
  }

  /** Parsing any binding and writing it back canonically keeps its meaning. */
  lemma ParseRefInvertsRefString(value: string)
    requires ParseRef(value).Some?
    ensures ParseRef(RefString(ParseRef(value).value)) == ParseRef(value)
  {
    var v, r := Trim(value), ParseRef(value).value;
    if ':' !in v || (r.source == LOCAL_SOURCE && r.typeName == LOCAL_SOURCE) {
      PlainName(r.name);
    } else {
      TrimEdges(value);
      QualifiedInverts(v, r);
    }
  }
}
