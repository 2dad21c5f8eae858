/**
  Cache keys of internal/feature/staticcache/staticcache.go: how a request is
  reduced to canonical fields, and how those fields are laid out as the bytes
  that are hashed.
 */
module Canonical {
  import opened Text
  import opened Orders
  import opened Sorting
  import opened Keys

  // ------------------------------------------------------------------
  // strings.Split and strings.Join with a one-character separator.

  function Split(s: string, sep: char): (r: seq<string>)
    ensures |r| > 0 && forall i | 0 <= i < |r| :: sep !in r[i]
  {
    if s == "" then [""]
    else
      var rest := Split(s[1..], sep);
      if s[0] == sep then [""] + rest else [[s[0]] + rest[0]] + rest[1..]
  }

  function Join(parts: seq<string>, sep: char): string {
    if parts == [] then ""
    else if |parts| == 1 then parts[0]
    else parts[0] + [sep] + Join(parts[1..], sep)
  }

  lemma {:induction false} JoinSplit(s: string, sep: char)
    ensures Join(Split(s, sep), sep) == s
    decreases |s|
  {
    if s != "" {
      JoinSplit(s[1..], sep);
      var rest := Split(s[1..], sep);
      assert s == [s[0]] + s[1..];
      if s[0] == sep {
        assert ([""] + rest)[1..] == rest;
      } else {
        var parts := [[s[0]] + rest[0]] + rest[1..];
        assert parts[1..] == rest[1..];
      }
    }
  }

  lemma {:induction false} SplitFirst(p: string, rest: string, sep: char)
    requires sep !in p
    ensures Split(p + [sep] + rest, sep) == [p] + Split(rest, sep)
    decreases |p|
  {
    var s := p + [sep] + rest;
    if p == "" {
      assert s[1..] == rest;
    } else {
      SplitFirst(p[1..], rest, sep);
      assert s[1..] == p[1..] + [sep] + rest;
      assert p == [p[0]] + p[1..];
    }
  }

  lemma {:induction false} SplitWhole(p: string, sep: char)
    requires sep !in p
    ensures Split(p, sep) == [p]
    decreases |p|
  {
    if p != "" {
      SplitWhole(p[1..], sep);
      assert p == [p[0]] + p[1..];
    }
  }

  ghost predicate SepFree(parts: seq<string>, sep: char) {
    forall i | 0 <= i < |parts| :: sep !in parts[i]
  }

  lemma {:induction false} SplitJoin(parts: seq<string>, sep: char)
    requires parts != [] && SepFree(parts, sep)
    ensures Split(Join(parts, sep), sep) == parts
    decreases |parts|
  {
    if |parts| == 1 {
      SplitWhole(parts[0], sep);
    } else {
      SplitJoin(parts[1..], sep);
      SplitFirst(parts[0], Join(parts[1..], sep), sep);
    }
  }

  // ------------------------------------------------------------------
  // Which characters survive.

  ghost predicate All(ok: char -> bool, s: string) {
    forall i | 0 <= i < |s| :: ok(s[i])
  }

  ghost predicate AllParts(ok: char -> bool, parts: seq<string>) {
    forall i | 0 <= i < |parts| :: All(ok, parts[i])
  }

  lemma {:induction false} SplitKeeps(ok: char -> bool, s: string, sep: char)
    requires All(ok, s)
    ensures AllParts(ok, Split(s, sep))
    decreases |s|
  {
    if s != "" {
      SplitKeeps(ok, s[1..], sep);
    }
  }

  lemma {:induction false} JoinKeeps(ok: char -> bool, parts: seq<string>, sep: char)
    requires AllParts(ok, parts) && ok(sep)
    ensures All(ok, Join(parts, sep))
    decreases |parts|
  {
    if |parts| > 1 {
      assert AllParts(ok, parts[1..]);
      JoinKeeps(ok, parts[1..], sep);
      assert All(ok, parts[0]);
    } else if |parts| == 1 {
      assert All(ok, parts[0]);
    }
  }

  lemma {:induction false} TrimLeftKeeps(ok: char -> bool, s: string)
    requires All(ok, s)
    ensures All(ok, TrimLeft(s)) && (TrimLeft(s) != "" ==> !IsSpace(TrimLeft(s)[0]))
    decreases |s|
  {
    if s != "" && IsSpace(s[0]) {
      TrimLeftKeeps(ok, s[1..]);
    }
  }

  lemma {:induction false} TrimEndKeeps(ok: char -> bool, s: string)
    requires All(ok, s)
    ensures All(ok, TrimEnd(s)) && |TrimEnd(s)| <= |s| && TrimEnd(s) == s[..|TrimEnd(s)|]
    ensures TrimEnd(s) != "" ==> !IsSpace(TrimEnd(s)[|TrimEnd(s)| - 1])
    decreases |s|
  {
    if s != "" && IsSpace(s[|s| - 1]) {
      TrimEndKeeps(ok, s[..|s| - 1]);
    }
  }

  predicate Trimmed(s: string) { s == "" || (!IsSpace(s[0]) && !IsSpace(s[|s| - 1])) }

  lemma {:induction false} TrimSpaceKeeps(ok: char -> bool, s: string)
    requires All(ok, s)
    ensures All(ok, TrimSpace(s)) && Trimmed(TrimSpace(s))
  {
    TrimLeftKeeps(ok, s);
    TrimEndKeeps(ok, TrimLeft(s));
  }

  lemma {:induction false} LowerAllKeeps(s: string)
    ensures LowerAll(LowerAll(s)) == LowerAll(s) && All(c => Lower(c) == c, LowerAll(s))
  {}

  lemma {:induction false} LowerIsSame(s: string)
    requires All(c => Lower(c) == c, s)
    ensures LowerAll(s) == s
  {
    var low := (c: char) => Lower(c) == c;
    forall i | 0 <= i < |s|
      ensures LowerAll(s)[i] == s[i]
    {
      assert low(s[i]);
    }
  }

  // ------------------------------------------------------------------
  // sort.Strings.

  /** sort.Strings. */
  function SortStrings(s: seq<string>): seq<string> { Sort(StrLe, s) }

  lemma {:induction false} SortStringsSorts(s: seq<string>)
    ensures SortedBy(StrLe, SortStrings(s)) && multiset(SortStrings(s)) == multiset(s) && |SortStrings(s)| == |s|
  {
    StrOrder();
    SortSorts(StrLe, s);
  }

  lemma {:induction false} SameHead(s: seq<string>, t: seq<string>)
    requires SortedBy(StrLe, s) && SortedBy(StrLe, t) && multiset(s) == multiset(t) && s != [] && t != []
    ensures s[0] == t[0]
  {
    assert s[0] in multiset(t) && t[0] in multiset(s);
    assert s[0] == t[0] || (StrLe(t[0], s[0]) && StrLe(s[0], t[0]));
    StrTotal(s[0], t[0]);
  }

  lemma {:induction false} TailPermutes(s: seq<string>)
    requires s != []
    ensures multiset(s[1..]) == multiset(s) - multiset{s[0]}
  {
    assert s == [s[0]] + s[1..];
  }

  /** A list has only one sorted arrangement. */
  lemma {:induction false} SortedUnique(s: seq<string>, t: seq<string>)
    requires SortedBy(StrLe, s) && SortedBy(StrLe, t) && multiset(s) == multiset(t)
    ensures s == t
    decreases |s|
  {
    assert |s| == |multiset(s)| == |multiset(t)| == |t|;
    if s != [] {
      SameHead(s, t);
      TailPermutes(s);
      TailPermutes(t);
      SortedUnique(s[1..], t[1..]);
      assert s == [s[0]] + s[1..] && t == [t[0]] + t[1..];
    }
  }

  lemma {:induction false} SortEqualIff(s: seq<string>, t: seq<string>)
    ensures SortStrings(s) == SortStrings(t) <==> multiset(s) == multiset(t)
  {
    SortStringsSorts(s);
    SortStringsSorts(t);
    if multiset(s) == multiset(t) {
      SortedUnique(SortStrings(s), SortStrings(t));
    }
  }

  lemma {:induction false} SortIdempotent(s: seq<string>)
    ensures SortStrings(SortStrings(s)) == SortStrings(s)
  {
    SortStringsSorts(s);
    SortEqualIff(SortStrings(s), s);
  }

  /** What holds of every element still holds of every element of the sorted list. */
  lemma {:induction false} SortKeepsAll(ok: string -> bool, s: seq<string>)
    requires forall i | 0 <= i < |s| :: ok(s[i])
    ensures |SortStrings(s)| == |s| && forall i | 0 <= i < |s| :: ok(SortStrings(s)[i])
  {
    SortStringsSorts(s);
    var t := SortStrings(s);
    assert |t| == |multiset(t)| == |multiset(s)| == |s|;
    forall i | 0 <= i < |t|
      ensures ok(t[i])
    {
      assert t[i] in multiset(t);
      assert t[i] in s;
    }
  }

  // ------------------------------------------------------------------
  // The query.

  function CanonicaliseQuery(raw: string): string {
    if raw == "" then "" else Join(SortStrings(Split(raw, '&')), '&')
  }

  lemma {:induction false} QueryParts(raw: string)
    ensures Split(CanonicaliseQuery(raw), '&') == SortStrings(Split(raw, '&'))
  {
    var parts := Split(raw, '&');
    if raw == "" {
      SortStringsSorts(parts);
      assert SortStrings([""]) == [""];
    } else {
      SortKeepsAll(p => '&' !in p, parts);
      SplitJoin(SortStrings(parts), '&');
    }
  }

  /** Two queries share a slot exactly when they hold the same parameters, each the same number of times. */
  lemma {:induction false} SameQueryIff(a: string, b: string)
    ensures CanonicaliseQuery(a) == CanonicaliseQuery(b) <==> multiset(Split(a, '&')) == multiset(Split(b, '&'))
  {
    QueryParts(a);
    QueryParts(b);
    SortEqualIff(Split(a, '&'), Split(b, '&'));
    JoinSplit(CanonicaliseQuery(a), '&');
    JoinSplit(CanonicaliseQuery(b), '&');
  }

  lemma {:induction false} QueryIdempotent(raw: string)
    ensures CanonicaliseQuery(CanonicaliseQuery(raw)) == CanonicaliseQuery(raw)
  {
    QueryParts(raw);
    SortStringsSorts(Split(raw, '&'));
    SameQueryIff(CanonicaliseQuery(raw), raw);
  }

  lemma {:induction false} QueryKeeps(ok: char -> bool, raw: string)
    requires All(ok, raw) && ok('&')
    ensures All(ok, CanonicaliseQuery(raw))
  {
    var parts := Split(raw, '&');
    SplitKeeps(ok, raw, '&');
    SortStringsSorts(parts);
    assert AllParts(ok, SortStrings(parts)) by {
      forall i | 0 <= i < |SortStrings(parts)|
        ensures All(ok, SortStrings(parts)[i])
      {
        assert SortStrings(parts)[i] in multiset(parts);
      }
    }
    JoinKeeps(ok, SortStrings(parts), '&');
  }

  // ------------------------------------------------------------------
  // Accept-Encoding.

  predicate IsAllZero(s: string) { s != "" && forall i | 0 <= i < |s| :: s[i] == '0' }

  predicate IsZeroWeight(param: string) {
    param == "q=0" || ("q=0." <= param && IsAllZero(param[|"q=0."|..]))
  }

  predicate Refused(params: seq<string>) {
    exists i | 0 <= i < |params| :: IsZeroWeight(TrimSpace(params[i]))
  }

  /** The coding a list element asks for, or nothing if it is empty or refused with weight zero. */
  function CodingOf(part: string): seq<string> {
    var p := TrimSpace(part);
    var pieces := Split(p, ';');
    var coding := TrimSpace(pieces[0]);
    if coding == "" || Refused(pieces[1..]) then [] else [coding]
  }

  /** What f makes of each element, in order. */
  function Gather(f: string -> seq<string>, parts: seq<string>): seq<string> {
    if parts == [] then [] else Gather(f, parts[..|parts| - 1]) + f(parts[|parts| - 1])
  }

  function Codings(parts: seq<string>): seq<string> { Gather(CodingOf, parts) }

  /** Codings of a whole header. */
  function Accepted(h: string): seq<string> { Codings(Split(LowerAll(h), ',')) }

  function CanonicalEncoding(h: string): string { Join(SortStrings(Accepted(h)), ',') }

  /** The inner loop over a coding's parameters. */
  method AnyZeroWeight(params: seq<string>) returns (qZero: bool)
    ensures qZero == Refused(params)
  {
    qZero := false;
    for j := 0 to |params|
      invariant !qZero && forall i | 0 <= i < j :: !IsZeroWeight(TrimSpace(params[i]))
    {
      if IsZeroWeight(TrimSpace(params[j])) {
        return true;
      }
    }
  }

  /** One pass of the outer loop. */
  method AppendCoding(out: seq<string>, part: string) returns (r: seq<string>)
    ensures r == out + CodingOf(part)
  {
    r := out;
    var pieces := Split(TrimSpace(part), ';');
    var coding := TrimSpace(pieces[0]);
    var qZero := AnyZeroWeight(pieces[1..]);
    if coding != "" && !qZero {
      r := out + [coding];
    }
  }

  method CanonicalAcceptEncoding(h: string) returns (r: string)
    ensures r == CanonicalEncoding(h)
  {
    if h == "" {
      EmptyHeader();
      return "";
    }
    var parts := Split(LowerAll(h), ',');
    var out: seq<string> := [];
    for k := 0 to |parts|
      invariant out == Codings(parts[..k])
    {
      assert parts[..k + 1][..k] == parts[..k];
      out := AppendCoding(out, parts[k]);
    }
    assert parts[..|parts|] == parts;
    return Join(SortStrings(out), ',');
  }

  lemma {:induction false} EmptyHeader()
    ensures CanonicalEncoding("") == ""
  {
    assert LowerAll("") == "";
    assert Split("", ',') == [""];
    assert TrimSpace("") == "" && Split("", ';') == [""];
    assert CodingOf("") == [];
    assert Codings([""]) == Codings([]) + CodingOf("");
  }

  /** What every coding in the list looks like. */
  predicate Clean(c: string) {
    && c != "" && Trimmed(c) && ',' !in c && ';' !in c
    && LowerAll(c) == c
  }

  predicate Plain(c: char) { Lower(c) == c && c != ',' }

  lemma {:induction false} CodingIsClean(part: string)
    requires All(Plain, part)
    ensures forall i | 0 <= i < |CodingOf(part)| :: Clean(CodingOf(part)[i])
  {
    var p := TrimSpace(part);
    TrimSpaceKeeps(Plain, part);
    SplitKeeps(Plain, p, ';');
    var head := Split(p, ';')[0];
    var both := (c: char) => Plain(c) && c != ';';
    assert All(both, head);
    TrimSpaceKeeps(both, head);
    var coding := TrimSpace(head);
    LowerIsSame(coding) by {
      forall i | 0 <= i < |coding| ensures Lower(coding[i]) == coding[i] { assert both(coding[i]); }
    }
    forall i | 0 <= i < |coding| ensures coding[i] != ',' && coding[i] != ';' { assert both(coding[i]); }
  }

  lemma {:induction false} CodingsAreClean(parts: seq<string>)
    requires AllParts(Plain, parts)
    ensures forall i | 0 <= i < |Codings(parts)| :: Clean(Codings(parts)[i])
    decreases |parts|
  {
    if parts != [] {
      CodingsAreClean(parts[..|parts| - 1]);
      CodingIsClean(parts[|parts| - 1]);
      assert Codings(parts) == Codings(parts[..|parts| - 1]) + CodingOf(parts[|parts| - 1]);
    }
  }

  lemma {:induction false} AcceptedIsClean(h: string)
    ensures forall i | 0 <= i < |Accepted(h)| :: Clean(Accepted(h)[i])
  {
    var low := LowerAll(h);
    var lower := (c: char) => Lower(c) == c;
    assert All(lower, low);
    SplitKeeps(lower, low, ',');
    var parts := Split(low, ',');
    assert AllParts(Plain, parts) by {
      forall i | 0 <= i < |parts|
        ensures All(Plain, parts[i])
      {
        assert All(lower, parts[i]) && ',' !in parts[i];
        forall j | 0 <= j < |parts[i]| ensures Plain(parts[i][j]) { assert lower(parts[i][j]); }
      }
    }
    CodingsAreClean(parts);
  }

  lemma {:induction false} CleanIsItsOwnCoding(c: string)
    requires Clean(c)
    ensures CodingOf(c) == [c]
  {
    assert TrimSpace(c) == c;
    SplitWhole(c, ';');
    assert [c][1..] == [];
  }

  lemma {:induction false} CleanCodings(cs: seq<string>)
    requires forall i | 0 <= i < |cs| :: Clean(cs[i])
    ensures Codings(cs) == cs
    decreases |cs|
  {
    if cs != [] {
      CleanCodings(cs[..|cs| - 1]);
      CleanIsItsOwnCoding(cs[|cs| - 1]);
    }
  }

  lemma {:induction false} CanonicalIsAccepted(h: string)
    ensures Accepted(CanonicalEncoding(h)) == SortStrings(Accepted(h))
  {
    AcceptedIsClean(h);
    var cs := SortStrings(Accepted(h));
    SortKeepsAll(Clean, Accepted(h));
    var s := Join(cs, ',');
    if cs == [] {
      EmptyHeaderCodings();
    } else {
      var lower := (c: char) => Lower(c) == c;
      assert AllParts(lower, cs) by {
        forall i | 0 <= i < |cs| ensures All(lower, cs[i]) { CleanIsLower(cs[i]); }
      }
      JoinKeeps(lower, cs, ',');
      LowerIsSame(s);
      SplitJoin(cs, ',');
      CleanCodings(cs);
    }
  }

  lemma {:induction false} CleanIsLower(c: string)
    requires Clean(c)
    ensures All(c => Lower(c) == c, c)
  {
    forall i | 0 <= i < |c| ensures Lower(c[i]) == c[i] { assert LowerAll(c)[i] == c[i]; }
  }

  lemma {:induction false} EmptyHeaderCodings()
    ensures Accepted("") == []
  {
    assert LowerAll("") == "";
    assert TrimSpace("") == "" && Split("", ';') == [""];
    assert CodingOf("") == [];
    assert Codings([""]) == Codings([]) + CodingOf("");
  }

  lemma {:induction false} EncodingIdempotent(h: string)
    ensures CanonicalEncoding(CanonicalEncoding(h)) == CanonicalEncoding(h)
  {
    CanonicalIsAccepted(h);
    SortIdempotent(Accepted(h));
  }

  /** Two headers share a slot exactly when they accept the same codings. */
  lemma {:induction false} SameEncodingIff(a: string, b: string)
    ensures CanonicalEncoding(a) == CanonicalEncoding(b) <==> multiset(Accepted(a)) == multiset(Accepted(b))
  {
    SortEqualIff(Accepted(a), Accepted(b));
    CanonicalIsAccepted(a);
    CanonicalIsAccepted(b);
  }

  function Zeros(n: nat): string { seq(n, i => '0') }

  /** The ways to write a weight of zero. */
  lemma {:induction false} ZeroWeightIff(param: string)
    ensures IsZeroWeight(param) <==> param == "q=0" || exists n: nat | n > 0 :: param == "q=0." + Zeros(n)
  {
    if "q=0." <= param && IsAllZero(param[4..]) {
      assert param[4..] == Zeros(|param| - 4);
      assert param == "q=0." + Zeros(|param| - 4);
    }
    if n: nat :| n > 0 && param == "q=0." + Zeros(n) {
      assert param[4..] == Zeros(n);
    }
  }

  /** An element with parameters asks for its coding unless one of them is a weight of zero. */
  lemma {:induction false} WeightedCoding(c: string, params: seq<string>)
    requires Clean(c) && params != [] && SepFree(params, ';') && Trimmed(c + ";" + Join(params, ';'))
    ensures CodingOf(c + ";" + Join(params, ';')) ==
              if exists i | 0 <= i < |params| :: IsZeroWeight(TrimSpace(params[i])) then [] else [c]
  {
    var part := c + ";" + Join(params, ';');
    assert TrimSpace(part) == part;
    SplitFirst(c, Join(params, ';'), ';');
    SplitJoin(params, ';');
    assert ([c] + params)[1..] == params;
    assert TrimSpace(c) == c;
  }

  /** What is gathered does not depend on the order of the list. */
  lemma {:induction false} GatherOrder(f: string -> seq<string>, s: seq<string>, t: seq<string>)
    requires multiset(s) == multiset(t)
    ensures multiset(Gather(f, s)) == multiset(Gather(f, t))
    decreases |s|
  {
    assert |s| == |multiset(s)| == |multiset(t)| == |t|;
    if s != [] {
      var n := |s| - 1;
      assert s == s[..n] + [s[n]];
      assert s[n] in multiset(t);
      var j :| 0 <= j < |t| && t[j] == s[n];
      OmitPermutes(t, j);
      GatherOrder(f, s[..n], t[..j] + t[j + 1..]);
      GatherOmit(f, t, j);
    }
  }

  lemma {:induction false} OmitPermutes(t: seq<string>, j: nat)
    requires j < |t|
    ensures multiset(t[..j] + t[j + 1..]) == multiset(t) - multiset{t[j]}
  {
    assert t == t[..j] + [t[j]] + t[j + 1..];
  }

  lemma {:induction false} GatherConcat(f: string -> seq<string>, s: seq<string>, t: seq<string>)
    ensures Gather(f, s + t) == Gather(f, s) + Gather(f, t)
    decreases |t|
  {
    if t == [] {
      assert s + t == s;
    } else {
      assert (s + t)[..|s + t| - 1] == s + t[..|t| - 1];
      GatherConcat(f, s, t[..|t| - 1]);
    }
  }

  lemma {:induction false} GatherOmit(f: string -> seq<string>, t: seq<string>, j: nat)
    requires j < |t|
    ensures multiset(Gather(f, t)) == multiset(Gather(f, t[..j] + t[j + 1..])) + multiset(f(t[j]))
  {
    var before, after := t[..j], t[j + 1..];
    assert t == before + ([t[j]] + after);
    GatherConcat(f, before, [t[j]] + after);
    GatherConcat(f, [t[j]], after);
    GatherConcat(f, before, after);
    assert Gather(f, [t[j]]) == Gather(f, []) + f(t[j]);
  }

  lemma {:induction false} EncodingOrderInsensitive(a: string, b: string)
    requires multiset(Split(LowerAll(a), ',')) == multiset(Split(LowerAll(b), ','))
    ensures CanonicalEncoding(a) == CanonicalEncoding(b)
  {
    GatherOrder(CodingOf, Split(LowerAll(a), ','), Split(LowerAll(b), ','));
    SameEncodingIff(a, b);
  }

  lemma {:induction false} EncodingKeeps(ok: char -> bool, h: string)
    requires All(ok, LowerAll(h)) && ok(',')
    ensures All(ok, CanonicalEncoding(h))
  {
    var parts := Split(LowerAll(h), ',');
    SplitKeeps(ok, LowerAll(h), ',');
    CodingsKeep(ok, parts);
    var cs := Codings(parts);
    SortStringsSorts(cs);
    assert AllParts(ok, SortStrings(cs)) by {
      forall i | 0 <= i < |SortStrings(cs)| ensures All(ok, SortStrings(cs)[i]) {
        assert SortStrings(cs)[i] in multiset(cs);
      }
    }
    JoinKeeps(ok, SortStrings(cs), ',');
  }

  lemma {:induction false} CodingsKeep(ok: char -> bool, parts: seq<string>)
    requires AllParts(ok, parts)
    ensures AllParts(ok, Codings(parts))
    decreases |parts|
  {
    if parts != [] {
      var last := parts[|parts| - 1];
      CodingsKeep(ok, parts[..|parts| - 1]);
      TrimSpaceKeeps(ok, last);
      SplitKeeps(ok, TrimSpace(last), ';');
      TrimSpaceKeeps(ok, Split(TrimSpace(last), ';')[0]);
    }
  }

  // ------------------------------------------------------------------
  // The path: path.Clean on a rooted path.

  /** Elements taken in order; an empty or dot element changes nothing, a double dot undoes one. */
  function Walk(elements: seq<string>): seq<string> {
    if elements == [] then []
    else
      var before := Walk(elements[..|elements| - 1]);
      var e := elements[|elements| - 1];
      if e == "" || e == "." then before
      else if e == ".." then if before == [] then [] else before[..|before| - 1]
      else before + [e]
  }

  function CleanPath(p: string): string { "/" + Join(Walk(Split(p, '/')), '/') }

  predicate RealElement(e: string) { e != "" && e != "." && e != ".." && '/' !in e }

  lemma {:induction false} WalkIsReal(elements: seq<string>)
    requires SepFree(elements, '/')
    ensures forall i | 0 <= i < |Walk(elements)| :: RealElement(Walk(elements)[i])
    decreases |elements|
  {
    if elements != [] {
      WalkIsReal(elements[..|elements| - 1]);
    }
  }

  lemma {:induction false} WalkReal(elements: seq<string>)
    requires forall i | 0 <= i < |elements| :: RealElement(elements[i])
    ensures Walk(elements) == elements && Walk([""] + elements) == elements
    decreases |elements|
  {
    if elements == [] {
      assert [""][..0] == [];
      assert Walk([""]) == [];
    } else {
      var n := |elements| - 1;
      WalkReal(elements[..n]);
      assert ([""] + elements)[..n + 1] == [""] + elements[..n];
    }
  }

  /** A cleaned path is its own clean form, and no element of it is empty, a dot or a double dot. */
  lemma {:induction false} PathIdempotent(p: string)
    ensures CleanPath(CleanPath(p)) == CleanPath(p)
    ensures forall i | 1 <= i < |Split(CleanPath(p), '/')| ::
              RealElement(Split(CleanPath(p), '/')[i]) || CleanPath(p) == "/"
  {
    var w := Walk(Split(p, '/'));
    WalkIsReal(Split(p, '/'));
    assert CleanPath(p) == "" + ['/'] + Join(w, '/');
    SplitFirst("", Join(w, '/'), '/');
    if w == [] {
      assert Split(Join(w, '/'), '/') == [""];
      assert ["", ""][..1] == [""] && [""][..0] == [];
      assert Walk([""]) == [];
      assert Walk(["", ""]) == [];
    } else {
      SplitJoin(w, '/');
      WalkReal(w);
    }
  }

  /** What comes after does not look behind what the elements before it came to. */
  lemma {:induction false} WalkOn(a: seq<string>, b: seq<string>, rest: seq<string>)
    requires Walk(a) == Walk(b)
    ensures Walk(a + rest) == Walk(b + rest)
    decreases |rest|
  {
    if rest == [] {
      assert a + rest == a && b + rest == b;
    } else {
      var n := |rest| - 1;
      WalkOn(a, b, rest[..n]);
      assert (a + rest)[..|a + rest| - 1] == a + rest[..n];
      assert (b + rest)[..|b + rest| - 1] == b + rest[..n];
    }
  }

  lemma {:induction false} WalkLast(a: seq<string>, e: string)
    ensures Walk(a + [e]) ==
              if e == "" || e == "." then Walk(a)
              else if e == ".." then if Walk(a) == [] then [] else Walk(a)[..|Walk(a)| - 1]
              else Walk(a) + [e]
  {
    assert (a + [e])[..|a|] == a;
  }

  lemma {:induction false} HeadThenRest(parts: seq<string>, more: seq<string>, c: char)
    requires parts != []
    ensures [[c] + (parts + more)[0]] + (parts + more)[1..] == [[c] + parts[0]] + parts[1..] + more
    ensures [""] + (parts + more) == [""] + parts + more
  {}

  lemma {:induction false} SplitConcat(p: string, q: string, sep: char)
    ensures Split(p + [sep] + q, sep) == Split(p, sep) + Split(q, sep)
    decreases |p|
  {
    var s := p + [sep] + q;
    if p == "" {
      SplitFirst("", q, sep);
    } else {
      SplitConcat(p[1..], q, sep);
      HeadThenRest(Split(p[1..], sep), Split(q, sep), p[0]);
      assert s[0] == p[0] && s[1..] == p[1..] + [sep] + q;
    }
  }

  /** Two paths that differ only in the middle, where the elements come to the same. */
  lemma {:induction false} CleanMiddle(p: string, a: string, b: string, q: string)
    requires Walk(Split(p, '/') + Split(a, '/')) == Walk(Split(p, '/') + Split(b, '/'))
    ensures CleanPath(p + "/" + a + "/" + q) == CleanPath(p + "/" + b + "/" + q)
  {
    SplitConcat(p, a, '/');
    SplitConcat(p + "/" + a, q, '/');
    SplitConcat(p, b, '/');
    SplitConcat(p + "/" + b, q, '/');
    WalkOn(Split(p, '/') + Split(a, '/'), Split(p, '/') + Split(b, '/'), Split(q, '/'));
  }

  lemma {:induction false} EmptyVanishes(p: string, q: string)
    ensures CleanPath(p + "/" + "" + "/" + q) == CleanPath(p + "/" + q)
  {
    var before := Split(p, '/');
    assert Split("", '/') == [""];
    SplitConcat(p, "", '/');
    SplitConcat(p + "/" + "", q, '/');
    SplitConcat(p, q, '/');
    WalkLast(before, "");
    WalkOn(before + [""], before, Split(q, '/'));
  }

  lemma {:induction false} WalkParent(a: seq<string>, e: string)
    requires RealElement(e)
    ensures Walk(a + [e, ".."]) == Walk(a) == Walk(a + [""]) == Walk(a + ["."])
  {
    WalkLast(a, e);
    WalkLast(a + [e], "..");
    WalkLast(a, "");
    WalkLast(a, ".");
    assert a + [e, ".."] == a + [e] + [".."];
  }

  lemma {:induction false} SplitParent(e: string)
    requires '/' !in e
    ensures Split(e + "/..", '/') == [e, ".."]
  {
    SplitFirst(e, "..", '/');
    SplitWhole("..", '/');
    assert e + "/.." == e + ['/'] + "..";
  }

  /** An element followed by a double dot can be left out. */
  lemma {:induction false} ParentCancels(p: string, e: string, q: string)
    requires RealElement(e)
    ensures CleanPath(p + "/" + (e + "/..") + "/" + q) == CleanPath(p + "/" + q)
  {
    SplitParent(e);
    SplitWhole("", '/');
    WalkParent(Split(p, '/'), e);
    CleanMiddle(p, e + "/..", "", q);
    EmptyVanishes(p, q);
  }

  /** So can an empty element and a dot. */
  lemma {:induction false} DotsVanish(p: string, q: string)
    ensures CleanPath(p + "/" + "." + "/" + q) == CleanPath(p + "/" + "" + "/" + q) == CleanPath(p + "/" + q)
  {
    SplitWhole(".", '/');
    SplitWhole("", '/');
    WalkParent(Split(p, '/'), "a");
    CleanMiddle(p, ".", "", q);
    EmptyVanishes(p, q);
  }

  /** And so can a double dot at the root. */
  lemma {:induction false} RootHasNoParent(q: string)
    ensures CleanPath("" + "/" + ".." + "/" + q) == CleanPath("" + "/" + q)
  {
    SplitWhole("", '/');
    SplitWhole("..", '/');
    WalkLast([], "");
    WalkLast([""], "..");
    WalkLast([""], "");
    assert [] + [""] == [""];
    CleanMiddle("", "..", "", q);
    EmptyVanishes("", q);
  }

  /** What is left is kept, in its order. */
  lemma {:induction false} RealPathStays(elements: seq<string>)
    requires elements != [] && forall i | 0 <= i < |elements| :: RealElement(elements[i])
    ensures CleanPath("/" + Join(elements, '/')) == "/" + Join(elements, '/')
  {
    assert "/" + Join(elements, '/') == "" + ['/'] + Join(elements, '/');
    SplitFirst("", Join(elements, '/'), '/');
    SplitJoin(elements, '/');
    WalkReal(elements);
  }

  // ------------------------------------------------------------------
  // The key.

  const GLOBAL_TENANT := "_global_"

  /** What the cache looks at in a request; an empty tenant means no tenant context. */
  /** A request; other are the header fields that nothing here looks at. */
  datatype Request = Request(
    tenant: string, verb: string, host: string, path: string, query: string,
    acceptEncoding: string, authorization: string, cookie: string, other: map<string, seq<string>>)

  datatype Fields = Fields(
    tenant: string, verb: string, host: string, path: string, query: string, encoding: string)

  function TrimSlashes(p: string): string {
    if p != "" && p[0] == '/' then TrimSlashes(p[1..]) else p
  }

  function Canon(r: Request): Fields {
    Fields(
      if r.tenant == "" then GLOBAL_TENANT else LowerAll(r.tenant),
      r.verb,
      LowerAll(r.host),
      CleanPath("/" + TrimSlashes(r.path)),
      CanonicaliseQuery(r.query),
      CanonicalEncoding(r.acceptEncoding))
  }

  function Layout(f: Fields): string {
    PairKey(f.tenant, f.verb + "\n" + f.host + "\n" + f.path + "\n" + f.query + "\n" + f.encoding)
  }

  method TenantKey(r: Request, hash: string -> string) returns (key: string)
    ensures key == hash(Layout(Canon(r)))
  {
    var tenantHost := GLOBAL_TENANT;
    if r.tenant != "" {
      tenantHost := LowerAll(r.tenant);
    }
    var accEnc := CanonicalAcceptEncoding(r.acceptEncoding);
    var h := tenantHost + [NUL];
    h := h + (r.verb + "\n" + LowerAll(r.host) + "\n" + CleanPath("/" + TrimSlashes(r.path)) + "\n"
              + CanonicaliseQuery(r.query) + "\n" + accEnc);
    return hash(h);
  }

  lemma {:induction false} CutAtFirst(a: string, b: string, a': string, b': string, c: char)
    requires a + [c] + b == a' + [c] + b'
    requires c !in a && c !in a'
    ensures a == a' && b == b'
  {
    var s := a + [c] + b;
    assert s[|a|] == c && s[|a'|] == c;
    assert |a| == |a'|;
    assert a == s[..|a|] && a' == s[..|a'|];
    assert b == s[|a| + 1..] && b' == s[|a'| + 1..];
  }

  lemma {:induction false} CutAtLast(a: string, b: string, a': string, b': string, c: char)
    requires a + [c] + b == a' + [c] + b'
    requires c !in b && c !in b'
    ensures a == a' && b == b'
  {
    var s := a + [c] + b;
    assert s[|a|] == c && s[|a'|] == c;
    assert |a| == |a'|;
    assert a == s[..|a|] && a' == s[..|a'|];
    assert b == s[|a| + 1..] && b' == s[|a'| + 1..];
  }

  /** Only the path, which is percent-decoded, may hold a line break. */
  ghost predicate Unbroken(f: Fields) {
    NUL !in f.tenant && '\n' !in f.verb && '\n' !in f.host && '\n' !in f.query && '\n' !in f.encoding
  }

  /** Requests whose fields differ are never hashed from the same bytes. */
  lemma {:induction false} LayoutInjective(f: Fields, g: Fields)
    requires Unbroken(f) && Unbroken(g)
    requires Layout(f) == Layout(g)
    ensures f == g
  {
    var fRest := f.path + "\n" + f.query + "\n" + f.encoding;
    var gRest := g.path + "\n" + g.query + "\n" + g.encoding;
    var fTail := f.verb + "\n" + (f.host + "\n" + fRest);
    var gTail := g.verb + "\n" + (g.host + "\n" + gRest);
    assert fTail == f.verb + "\n" + f.host + "\n" + f.path + "\n" + f.query + "\n" + f.encoding;
    assert gTail == g.verb + "\n" + g.host + "\n" + g.path + "\n" + g.query + "\n" + g.encoding;
    PairKeyInjective(f.tenant, fTail, g.tenant, gTail);
    CutAtFirst(f.verb, f.host + "\n" + fRest, g.verb, g.host + "\n" + gRest, '\n');
    CutAtFirst(f.host, fRest, g.host, gRest, '\n');
    CutAtLast(f.path + "\n" + f.query, f.encoding, g.path + "\n" + g.query, g.encoding, '\n');
    CutAtLast(f.path, f.query, g.path, g.query, '\n');
  }

  /** A request as an HTTP server delivers it: header values, query and host hold no line break. */
  ghost predicate Delivered(r: Request) {
    NUL !in r.tenant && '\n' !in r.verb && '\n' !in r.host && '\n' !in r.query && '\n' !in r.acceptEncoding
  }

  lemma {:induction false} KeepsLine(s: string)
    requires '\n' !in s
    ensures '\n' !in CanonicaliseQuery(s) && '\n' !in CanonicalEncoding(s)
  {
    var line := (c: char) => c != '\n';
    QueryKeeps(line, s);
    assert All(line, LowerAll(s));
    EncodingKeeps(line, s);
    NotIn(line, CanonicaliseQuery(s), '\n');
    NotIn(line, CanonicalEncoding(s), '\n');
  }

  lemma {:induction false} NotIn(ok: char -> bool, s: string, c: char)
    requires All(ok, s) && !ok(c)
    ensures c !in s
  {}

  lemma {:induction false} LowerKeepsOut(s: string, c: char)
    requires c !in s && (c == NUL || c == '\n')
    ensures c !in LowerAll(s)
  {
    forall i | 0 <= i < |s| ensures LowerAll(s)[i] != c { assert s[i] != c; }
  }

  lemma {:induction false} CanonIsUnbroken(r: Request)
    requires Delivered(r)
    ensures Unbroken(Canon(r))
  {
    var f := Canon(r);
    KeepsLine(r.query);
    KeepsLine(r.acceptEncoding);
    LowerKeepsOut(r.tenant, NUL);
    LowerKeepsOut(r.host, '\n');
    assert NUL !in GLOBAL_TENANT;
    assert f.query == CanonicaliseQuery(r.query) && f.encoding == CanonicalEncoding(r.acceptEncoding);
  }

  /** Canonical fields, read as a request, are their own canonical form. */
  lemma {:induction false} CanonIdempotent(r: Request)
    ensures var f := Canon(r);
            f == Canon(Request(f.tenant, f.verb, f.host, f.path, f.query, f.encoding,
                               r.authorization, r.cookie, r.other))
  {
    LowerAllKeeps(r.tenant);
    LowerAllKeeps(r.host);
    assert LowerAll(GLOBAL_TENANT) == GLOBAL_TENANT;
    PathIdempotent("/" + TrimSlashes(r.path));
    CleanPathTrim(CleanPath("/" + TrimSlashes(r.path)));
    QueryIdempotent(r.query);
    EncodingIdempotent(r.acceptEncoding);
  }

  /** Leading slashes are empty elements, which the walk skips. */
  lemma {:induction false} CleanPathTrim(p: string)
    requires p != "" && p[0] == '/'
    ensures CleanPath("/" + TrimSlashes(p)) == CleanPath(p)
    decreases |p|
  {
    var q := p[1..];
    assert p == "/" + q;
    if q != "" && q[0] == '/' {
      CleanPathTrim(q);
      SplitFirst("", q, '/');
      assert p == "" + ['/'] + q;
      WalkSkipsEmpty(Split(q, '/'));
    } else {
      assert TrimSlashes(p) == q;
    }
  }

  lemma {:induction false} WalkSkipsEmpty(elements: seq<string>)
    ensures Walk([""] + elements) == Walk(elements)
    decreases |elements|
  {
    var padded := [""] + elements;
    if elements == [] {
      assert padded[..0] == [];
    } else {
      assert padded[..|padded| - 1] == [""] + elements[..|elements| - 1];
      WalkSkipsEmpty(elements[..|elements| - 1]);
    }
  }
}
