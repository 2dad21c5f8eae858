/**
  Response headers in internal/feature/staticcache/staticcache.go: Go's header
  maps, and the removal of hop-by-hop fields (section 6.1 of RFC 7230).
 */
module Headers {
  import opened Text
  import opened Canonical

  type Fieldset = map<string, seq<string>>

  predicate IsTokenChar(c: char) {
    || 'a' <= c <= 'z' || 'A' <= c <= 'Z' || '0' <= c <= '9'
    || c in "!#$%&'*+-.^_`|~"
  }

  /** The token characters of section 3.2.6 of RFC 7230, by their codes. */
  lemma {:induction false} TokenCharIff(c: char)
    ensures IsTokenChar(c) <==>
            var n := c as int;
            || n in {33, 42, 43, 45, 46, 124, 126} || 35 <= n <= 39 || 48 <= n <= 57 || 65 <= n <= 90 || 94 <= n <= 122
  {}

  predicate IsToken(s: string) { forall i | 0 <= i < |s| :: IsTokenChar(s[i]) }

  /** textproto.CanonicalMIMEHeaderKey: capitals at the start and after a dash; anything odd is left alone. */
  function CanonicalName(s: string): string {
    if IsToken(s) then
      seq(|s|, i requires 0 <= i < |s| => if i == 0 || s[i - 1] == '-' then Upper(s[i]) else Lower(s[i]))
    else s
  }

  function First(h: Fieldset, name: string): string {
    if name in h && h[name] != [] then h[name][0] else ""
  }

  function AllOf(h: Fieldset, name: string): seq<string> {
    if name in h then h[name] else []
  }

  /** The first value of a field, and nothing where there is none. */
  lemma {:induction false} FirstIs(h: Fieldset, name: string)
    ensures First(h, name) == if AllOf(h, name) == [] then "" else AllOf(h, name)[0]
    ensures AllOf(h, name) != [] ==> name in h && AllOf(h, name) == h[name]
  {}

  const HOP_BY_HOP := [
    "Connection", "Keep-Alive", "Proxy-Authenticate", "Proxy-Authorization",
    "Te", "Trailer", "Transfer-Encoding", "Upgrade"]

  /** The fields that the elements of one Connection line name. */
  function TokenNames(tokens: seq<string>): set<string> {
    set t | t in tokens && TrimSpace(t) != "" :: CanonicalName(TrimSpace(t))
  }

  function ListedNames(lines: seq<string>): set<string> {
    if lines == [] then {}
    else ListedNames(lines[..|lines| - 1]) + TokenNames(Split(lines[|lines| - 1], ','))
  }

  function CanonicalNames(names: seq<string>): set<string> { set n | n in names :: CanonicalName(n) }

  function Dropped(h: Fieldset): set<string> {
    ListedNames(AllOf(h, "Connection")) + CanonicalNames(HOP_BY_HOP)
  }

  /** What may be stored: every field that belongs to the message and not to the connection, unchanged. */
  function Kept(h: Fieldset): Fieldset { h - Dropped(h) }

  class Header {
    var fields: Fieldset

    constructor (h: Fieldset)
      ensures fields == h
    {
      fields := h;
    }

    method Del(name: string)
      modifies this
      ensures fields == old(fields) - {CanonicalName(name)}
    {
      fields := fields - {CanonicalName(name)};
    }

    method DelTokens(tokens: seq<string>)
      modifies this
      ensures fields == old(fields) - TokenNames(tokens)
    {
      for j := 0 to |tokens|
        invariant fields == old(fields) - TokenNames(tokens[..j])
      {
        NextToken(tokens, j);
        var name := TrimSpace(tokens[j]);
        if name != "" {
          Del(name);
        }
      }
      assert tokens[..|tokens|] == tokens;
    }

    method DelListed(conns: seq<string>)
      modifies this
      ensures fields == old(fields) - ListedNames(conns)
    {
      for i := 0 to |conns|
        invariant fields == old(fields) - ListedNames(conns[..i])
      {
        assert conns[..i + 1][..i] == conns[..i];
        DelTokens(Split(conns[i], ','));
      }
      assert conns[..|conns|] == conns;
    }

    method DelNames(names: seq<string>)
      modifies this
      ensures fields == old(fields) - CanonicalNames(names)
    {
      for i := 0 to |names|
        invariant fields == old(fields) - CanonicalNames(names[..i])
      {
        assert names[..i + 1] == names[..i] + [names[i]];
        Del(names[i]);
      }
      assert names[..|names|] == names;
    }

    method StripHopByHop()
      modifies this
      ensures fields == Kept(old(fields))
    {
      DelListed(AllOf(fields, "Connection"));
      DelNames(HOP_BY_HOP);
    }
  }

  lemma {:induction false} NextToken(tokens: seq<string>, j: nat)
    requires j < |tokens|
    ensures TokenNames(tokens[..j + 1]) ==
              TokenNames(tokens[..j])
              + if TrimSpace(tokens[j]) != "" then {CanonicalName(TrimSpace(tokens[j]))} else {}
  {
    assert tokens[..j + 1] == tokens[..j] + [tokens[j]];
  }

  // ------------------------------------------------------------------
  // Capitalisation does not let a field through.

  lemma {:induction false} CaseBlind(a: string, b: string)
    requires LowerAll(a) == LowerAll(b) && IsToken(a)
    ensures IsToken(b) && CanonicalName(a) == CanonicalName(b)
  {
    assert |a| == |LowerAll(a)| == |b|;
    forall i | 0 <= i < |a|
      ensures Lower(a[i]) == Lower(b[i])
    {
      assert LowerAll(a)[i] == LowerAll(b)[i];
    }
    forall i | 0 <= i < |b|
      ensures IsTokenChar(b[i])
    {
      SameLetter(a[i], b[i]);
    }
    forall i | 0 <= i < |a|
      ensures CanonicalName(a)[i] == CanonicalName(b)[i]
    {
      SameLetter(a[i], b[i]);
      if i > 0 {
        SameLetter(a[i - 1], b[i - 1]);
      }
    }
  }

  lemma {:induction false} SameLetter(a: char, b: char)
    requires Lower(a) == Lower(b)
    ensures Upper(a) == Upper(b) && (a == '-' <==> b == '-') && (IsTokenChar(a) ==> IsTokenChar(b))
  {
    if a != b {
      assert ('a' <= a <= 'z' && 'A' <= b <= 'Z') || ('a' <= b <= 'z' && 'A' <= a <= 'Z');
    }
  }

  /** A field name as every Go writer of headers produces it. */
  predicate IsCanonical(name: string) { IsToken(name) && CanonicalName(name) == name }

  lemma {:induction false} ListedOnLine(lines: seq<string>, i: nat, token: string)
    requires i < |lines| && token in Split(lines[i], ',') && TrimSpace(token) != ""
    ensures CanonicalName(TrimSpace(token)) in ListedNames(lines)
    decreases |lines|
  {
    if i < |lines| - 1 {
      ListedOnLine(lines[..|lines| - 1], i, token);
    }
  }

  /** The fields of section 6.1 of RFC 7230 that belong to the connection. */
  ghost predicate HopByHop(name: string) {
    LowerAll(name) in {"connection", "keep-alive", "proxy-authenticate", "proxy-authorization",
                       "te", "trailer", "transfer-encoding", "upgrade"}
  }

  lemma {:induction false} ProxyHopNames()
    ensures LowerAll("Proxy-Authenticate") == "proxy-authenticate"
    ensures LowerAll("Proxy-Authorization") == "proxy-authorization"
  {
    assert LowerAll("Proxy-Authenticate") == "proxy-authenticate";
    assert LowerAll("Proxy-Authorization") == "proxy-authorization";
  }

  lemma {:induction false} EncodingHopName()
    ensures LowerAll("Transfer-Encoding") == "transfer-encoding"
  {
    assert LowerAll("Transfer-Encoding") == "transfer-encoding";
  }

  lemma {:induction false} ShortHopNames()
    ensures LowerAll("Connection") == "connection" && LowerAll("Keep-Alive") == "keep-alive"
    ensures LowerAll("Te") == "te" && LowerAll("Trailer") == "trailer" && LowerAll("Upgrade") == "upgrade"
  {
    assert LowerAll("Connection") == "connection" && LowerAll("Keep-Alive") == "keep-alive";
    assert LowerAll("Te") == "te" && LowerAll("Trailer") == "trailer" && LowerAll("Upgrade") == "upgrade";
  }

  lemma {:induction false} HopByHopIff(name: string)
    ensures HopByHop(name) <==> exists hop | hop in HOP_BY_HOP :: LowerAll(name) == LowerAll(hop)
  {
    ProxyHopNames();
    EncodingHopName();
    ShortHopNames();
    if HopByHop(name) {
      assert "Connection" in HOP_BY_HOP && "Keep-Alive" in HOP_BY_HOP && "Proxy-Authenticate" in HOP_BY_HOP;
      assert "Proxy-Authorization" in HOP_BY_HOP && "Te" in HOP_BY_HOP && "Trailer" in HOP_BY_HOP;
      assert "Transfer-Encoding" in HOP_BY_HOP && "Upgrade" in HOP_BY_HOP;
    }
  }

  /** However capitalised, the field is neither hop-by-hop nor listed in Connection. */
  ghost predicate EndToEnd(h: Fieldset, name: string) {
    && !HopByHop(name)
    && (forall i, token | 0 <= i < |AllOf(h, "Connection")| && token in Split(AllOf(h, "Connection")[i], ',')
                          && TrimSpace(token) != "" :: LowerAll(name) != LowerAll(TrimSpace(token)))
  }

  /**
    No kept field is hop-by-hop or listed in Connection, however either is
    capitalised; every other field is kept with its values.
   */
  lemma {:induction false} KeptIsEndToEnd(h: Fieldset, name: string)
    requires name in h && IsCanonical(name)
    ensures name in Kept(h) <==> EndToEnd(h, name)
    ensures name in Kept(h) ==> Kept(h)[name] == h[name]
  {
    var lines := AllOf(h, "Connection");
    HopByHopIff(name);
    if name in Kept(h) {
      forall hop | hop in HOP_BY_HOP
        ensures LowerAll(name) != LowerAll(hop)
      {
        if LowerAll(name) == LowerAll(hop) {
          CaseBlind(name, hop);
        }
      }
      forall i, token | 0 <= i < |lines| && token in Split(lines[i], ',') && TrimSpace(token) != ""
        ensures LowerAll(name) != LowerAll(TrimSpace(token))
      {
        ListedOnLine(lines, i, token);
        if LowerAll(name) == LowerAll(TrimSpace(token)) {
          CaseBlind(name, TrimSpace(token));
        }
      }
    } else if name in ListedNames(lines) {
      var i, token := ListedBy(lines, name);
      CanonicalKeepsLetters(TrimSpace(token));
    } else {
      var hop :| hop in HOP_BY_HOP && CanonicalName(hop) == name;
      CanonicalKeepsLetters(hop);
    }
  }

  lemma {:induction false} CanonicalKeepsLetters(s: string)
    ensures LowerAll(CanonicalName(s)) == LowerAll(s)
  {}

  lemma {:induction false} ListedBy(lines: seq<string>, name: string) returns (i: nat, token: string)
    requires name in ListedNames(lines)
    ensures i < |lines| && token in Split(lines[i], ',') && TrimSpace(token) != "" &&
              CanonicalName(TrimSpace(token)) == name
    decreases |lines|
  {
    var n := |lines| - 1;
    if name in TokenNames(Split(lines[n], ',')) {
      i := n;
      token :| token in Split(lines[n], ',') && TrimSpace(token) != "" && CanonicalName(TrimSpace(token)) == name;
    } else {
      i, token := ListedBy(lines[..n], name);
    }
  }
}
