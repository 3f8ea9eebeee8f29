/** Attributes of native report rows and the rules shared by the Flex projections. */
module FlexFields {
  import opened Wrappers

  const MAX_IDENTITY := 256

  function Text(field: Option<string>): string { if field.Some? then field.value else "" }

  predicate Given(field: Option<string>) { Text(field) != "" }

  function NonEmpty(field: Option<string>): Option<string> { if Given(field) then field else None }

  function LStrip(isSpace: char -> bool, s: string): string {
    if |s| > 0 && isSpace(s[0]) then LStrip(isSpace, s[1..]) else s
  }

  function RTrim(isSpace: char -> bool, s: string): string {
    if |s| > 0 && isSpace(s[|s| - 1]) then RTrim(isSpace, s[..|s| - 1]) else s
  }

  function Strip(isSpace: char -> bool, s: string): string { RTrim(isSpace, LStrip(isSpace, s)) }

  predicate Printable(s: string) {
    forall i :: 0 <= i < |s| ==> s[i] as int >= 0x20 && s[i] as int != 0x7F
  }

  predicate TextOk(isSpace: char -> bool, s: string, limit: nat) {
    0 < |s| <= limit && !isSpace(s[0]) && !isSpace(s[|s| - 1]) && Printable(s)
  }

  predicate IsUpper(c: char) { 'A' <= c <= 'Z' }

  function DayOf(day: string -> Option<int>, text: Option<string>): Option<int> {
    if text.Some? then day(text.value) else None
  }

  // ---------- what stripping leaves ----------

  ghost predicate Blank(isSpace: char -> bool, s: string) { forall c :: c in s ==> isSpace(c) }

  ghost predicate Bare(isSpace: char -> bool, s: string) {
    s == "" || (!isSpace(s[0]) && !isSpace(s[|s| - 1]))
  }

  lemma {:induction false} LStripLeaves(isSpace: char -> bool, s: string) returns (front: string)
    ensures s == front + LStrip(isSpace, s) && Blank(isSpace, front)
    ensures LStrip(isSpace, s) != "" ==> !isSpace(LStrip(isSpace, s)[0])
  {
    front := "";
    if |s| > 0 && isSpace(s[0]) {
      var rest := LStripLeaves(isSpace, s[1..]);
      front := [s[0]] + rest;
    }
  }

  lemma {:induction false} RTrimLeaves(isSpace: char -> bool, s: string) returns (back: string)
    ensures s == RTrim(isSpace, s) + back && Blank(isSpace, back)
    ensures var r := RTrim(isSpace, s); r != "" ==> !isSpace(r[|r| - 1]) && r[0] == s[0]
  {
    back := "";
    if |s| > 0 && isSpace(s[|s| - 1]) {
      var rest := RTrimLeaves(isSpace, s[..|s| - 1]);
      back := rest + [s[|s| - 1]];
    }
  }

  /** Stripping takes only white space from both ends, and all of it. */
  lemma StripLeaves(isSpace: char -> bool, s: string) returns (front: string, back: string)
    ensures s == front + (Strip(isSpace, s) + back) && Blank(isSpace, front) && Blank(isSpace, back)
    ensures Bare(isSpace, Strip(isSpace, s))
  {
    front := LStripLeaves(isSpace, s);
    back := RTrimLeaves(isSpace, LStrip(isSpace, s));
  }

  /** A good text is one that stripping leaves as it is, not empty, of limited length, without control characters. */
  lemma TextExactly(isSpace: char -> bool, s: string, limit: nat)
    ensures TextOk(isSpace, s, limit) <==>
              && s != "" && |s| <= limit && Strip(isSpace, s) == s
              && forall c :: c in s ==> c >= ' ' && c != '\U{7F}'
  {
    var _, _ := StripLeaves(isSpace, s);
    if Strip(isSpace, s) == s {
      assert Bare(isSpace, s);
    }
    assert forall i :: 0 <= i < |s| ==> s[i] in s;
    if s != "" && !isSpace(s[0]) && !isSpace(s[|s| - 1]) {
      assert LStrip(isSpace, s) == s == RTrim(isSpace, s);
    }
  }
}
