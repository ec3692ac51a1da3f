/** The few built-in operations on Python `str` that the validators rely on:
    `isspace` and `strip()`, `isdigit()` and the substring test `sub in s`.
    A character is a Unicode scalar value, so `|s|` is Python's `len(s)`. */
module PyStr {

  /** The characters for which Python's `str.isspace()` holds. */
  predicate IsSpace(c: char) {
    || '\t' <= c <= '\r'            // tab, line feed, vertical tab, form feed, carriage return
    || '\U{1C}' <= c <= '\U{1F}'    // file, group, record and unit separators
    || c == ' '
    || c == '\U{85}'                // next line
    || c == '\U{A0}'                // no-break space
    || c == '\U{1680}'
    || '\U{2000}' <= c <= '\U{200A}'
    || c == '\U{2028}' || c == '\U{2029}'
    || c == '\U{202F}' || c == '\U{205F}' || c == '\U{3000}'
  }

  /** Every character of `s` is whitespace (vacuously so for the empty string). */
  ghost predicate AllSpace(s: string) {
    forall i :: 0 <= i < |s| ==> IsSpace(s[i])
  }

  /** Python's `s.lstrip()`: drops the leading whitespace. */
  function LStrip(s: string): (r: string)
    ensures |r| <= |s| && r == s[|s| - |r|..]
    ensures forall i :: 0 <= i < |s| - |r| ==> IsSpace(s[i])
    ensures r != [] ==> !IsSpace(r[0])
    decreases |s|
  {
    if s != [] && IsSpace(s[0]) then LStrip(s[1..]) else s
  }

  /** Python's `s.rstrip()`: drops the trailing whitespace. */
  function RStrip(s: string): (r: string)
    ensures |r| <= |s| && r == s[..|r|]
    ensures forall i :: |r| <= i < |s| ==> IsSpace(s[i])
    ensures r != [] ==> !IsSpace(r[|r| - 1])
    decreases |s|
  {
    if s != [] && IsSpace(s[|s| - 1]) then RStrip(s[..|s| - 1]) else s
  }

  /** `r` is `s` with the whitespace before position `a` and after `a + |r|`
      removed. */
  ghost predicate StrippedFrom(s: string, r: string, a: int) {
    && 0 <= a && a + |r| <= |s|
    && r == s[a..a + |r|]
    && AllSpace(s[..a])
    && AllSpace(s[a + |r|..])
  }

  /** Stripping both ends leaves nothing exactly when every character is whitespace. */
  lemma StripEmptyIffAllSpace(s: string)
    ensures RStrip(LStrip(s)) == [] <==> AllSpace(s)
  {
    var l := LStrip(s);
    if RStrip(l) == [] {
      assert l == [];
    } else {
      assert !IsSpace(s[|s| - |l|]);
    }
  }

  /** Python's `s.strip()`: `s` with its leading and trailing whitespace
      removed, so empty exactly when `s` is blank, and otherwise neither
      starting nor ending with whitespace. */
  function Strip(s: string): (r: string)
    ensures r == [] <==> AllSpace(s)
    ensures |r| <= |s|
    ensures r != [] ==> !IsSpace(r[0]) && !IsSpace(r[|r| - 1])
  {
    StripEmptyIffAllSpace(s);
    var l := LStrip(s);
    var r := RStrip(l);
    assert r != [] ==> r[0] == l[0];
    r
  }

  /** `strip()` removes exactly the leading and the trailing whitespace: its
      result is the piece of `s` left between them. */
  lemma StripRemovesBothEnds(s: string)
    ensures exists a :: StrippedFrom(s, Strip(s), a)
  {
    var l := LStrip(s);
    var r := RStrip(l);
    var a := |s| - |l|;
    var front, back := s[..a], s[a + |r|..];
    forall i | 0 <= i < |front| ensures IsSpace(front[i]) {
      assert front[i] == s[i];
    }
    forall i | 0 <= i < |back| ensures IsSpace(back[i]) {
      assert back[i] == l[|r| + i];
    }
    assert StrippedFrom(s, Strip(s), a);
  }

  /** A decimal digit as `str.isdigit()` sees it, restricted to ASCII. */
  predicate IsDecimalDigit(c: char) {
    '0' <= c <= '9'
  }

  /** Python's `s.isdigit()`, defined directly: at least one character, and
      all of them ASCII digits. */
  predicate IsDigit(s: string) {
    |s| > 0 && forall i :: 0 <= i < |s| ==> IsDecimalDigit(s[i])
  }

  /** `sub` occurs in `s` starting at position `i`. */
  ghost predicate OccursAt(s: string, sub: string, i: int) {
    0 <= i && i + |sub| <= |s| && s[i..i + |sub|] == sub
  }

  /** `sub` occurs somewhere in `s`. */
  ghost predicate Occurs(s: string, sub: string) {
    exists i :: OccursAt(s, sub, i)
  }

  lemma OccursAtTail(s: string, sub: string)
    requires s != []
    ensures forall i :: 0 <= i ==> (OccursAt(s[1..], sub, i) <==> OccursAt(s, sub, i + 1))
  {
    forall i | 0 <= i ensures OccursAt(s[1..], sub, i) <==> OccursAt(s, sub, i + 1) {
      if 0 <= i && i + |sub| <= |s| - 1 {
        assert s[1..][i..i + |sub|] == s[i + 1..i + 1 + |sub|];
      }
    }
  }

  /** Python's `sub in s`: a scan over the start positions of `s`. */
  function Contains(s: string, sub: string): (b: bool)
    ensures b <==> Occurs(s, sub)
    decreases |s|
  {
    if |sub| > |s| then
      false
    else if s[..|sub|] == sub then
      assert OccursAt(s, sub, 0);
      true
    else
      OccursAtTail(s, sub);
      assert forall i :: OccursAt(s, sub, i) ==> i >= 1 && OccursAt(s[1..], sub, i - 1);
      var b := Contains(s[1..], sub);
      assert b ==> exists i :: OccursAt(s[1..], sub, i) && OccursAt(s, sub, i + 1);
      b
  }

  /** Python's `any(sub in s for sub in subs)`. */
  function ContainsAny(s: string, subs: seq<string>): (b: bool)
    ensures b <==> exists k :: 0 <= k < |subs| && Occurs(s, subs[k])
  {
    if subs == [] then
      false
    else
      var b := Contains(s, subs[0]) || ContainsAny(s, subs[1..]);
      assert forall k :: 1 <= k < |subs| ==> subs[k] == subs[1..][k - 1];
      b
  }

  /** An occurrence of `sub` in `s` is still one wherever `s` is embedded. */
  lemma {:induction false} OccursInContext(s: string, sub: string, pre: string, post: string)
    requires Occurs(s, sub)
    ensures Occurs(pre + s + post, sub)
  {
    var i :| OccursAt(s, sub, i);
    var t := pre + s + post;
    assert t[|pre| + i..|pre| + i + |sub|] == s[i..i + |sub|];
    assert OccursAt(t, sub, |pre| + i);
  }
}
