/** ASCII case mapping, as strings.ToLower and strings.ToUpper do it on host names and headers. */
module Text {

  function Lower(c: char): char { if 'A' <= c <= 'Z' then c - 'A' + 'a' else c }
  function Upper(c: char): char { if 'a' <= c <= 'z' then c - 'a' + 'A' else c }

  function LowerAll(s: string): (r: string)
    ensures |r| == |s|
  {
    seq(|s|, i requires 0 <= i < |s| => Lower(s[i]))
  }

  function UpperAll(s: string): (r: string)
    ensures |r| == |s|
  {
    seq(|s|, i requires 0 <= i < |s| => Upper(s[i]))
  }

  predicate IsSpace(c: char) {
    c == ' ' || c == '\t' || c == '\n' || c == '\r' || c == 0x0b as char || c == 0x0c as char
  }

  function TrimLeft(s: string): string {
    if s != "" && IsSpace(s[0]) then TrimLeft(s[1..]) else s
  }

  function TrimEnd(s: string): string {
    if s != "" && IsSpace(s[|s| - 1]) then TrimEnd(s[..|s| - 1]) else s
  }

  /** strings.TrimSpace. */
  function TrimSpace(s: string): string { TrimEnd(TrimLeft(s)) }

  // ------------------------------------------------------------------
  // What these do, character by character.

  /** Capitals move to the small letters, everything else stays. */
  lemma {:induction false} LowerAllMoves(s: string, i: nat)
    requires i < |s|
    ensures LowerAll(s)[i] as int == s[i] as int + if 65 <= s[i] as int <= 90 then 32 else 0
    ensures UpperAll(s)[i] as int == s[i] as int - if 97 <= s[i] as int <= 122 then 32 else 0
  {}

  /** Tab, line feed, vertical tab, form feed, carriage return and blank. */
  lemma {:induction false} SpaceIff(c: char)
    ensures IsSpace(c) <==> 9 <= c as int <= 13 || c as int == 32
  {}

  ghost predicate Blank(s: string) { forall i | 0 <= i < |s| :: IsSpace(s[i]) }

  lemma {:induction false} TrimLeftDrops(s: string) returns (n: nat)
    ensures n <= |s| && Blank(s[..n]) && TrimLeft(s) == s[n..] && (n < |s| ==> !IsSpace(s[n]))
    decreases |s|
  {
    n := 0;
    if s != "" && IsSpace(s[0]) {
      var m := TrimLeftDrops(s[1..]);
      n := m + 1;
      assert s[1..][m..] == s[n..];
      assert forall i | 1 <= i < n :: s[i] == s[1..][..m][i - 1];
    }
  }

  lemma {:induction false} TrimEndDrops(s: string) returns (n: nat)
    ensures n <= |s| && Blank(s[n..]) && TrimEnd(s) == s[..n] && (n > 0 ==> !IsSpace(s[n - 1]))
    decreases |s|
  {
    n := |s|;
    if s != "" && IsSpace(s[|s| - 1]) {
      n := TrimEndDrops(s[..|s| - 1]);
      assert s[..|s| - 1][..n] == s[..n];
      assert forall i | n <= i < |s| - 1 :: s[i] == s[..|s| - 1][n..][i - n];
    } else {
      assert s[..n] == s;
    }
  }

  /** Trimming takes the blanks off both ends, and only those. */
  lemma {:induction false} TrimSpaceDrops(s: string) returns (before: string, after: string)
    ensures s == before + TrimSpace(s) + after && Blank(before) && Blank(after)
    ensures TrimSpace(s) != "" ==> !IsSpace(TrimSpace(s)[0]) && !IsSpace(TrimSpace(s)[|TrimSpace(s)| - 1])
  {
    var n := TrimLeftDrops(s);
    var m := TrimEndDrops(s[n..]);
    before, after := s[..n], s[n..][m..];
  }
}
