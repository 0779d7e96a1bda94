/** The string operations of Python that the modelled code uses. */
module Text {

  /** `str.isspace` on one character. */
  predicate IsSpace(c: char) {
    || '\t' <= c <= '\r' || '\U{1c}' <= c <= ' ' || c == '\U{85}' || c == '\U{a0}' || c == '\U{1680}'
    || '\U{2000}' <= c <= '\U{200a}' || c == '\U{2028}' || c == '\U{2029}' || c == '\U{202f}'
    || c == '\U{205f}' || c == '\U{3000}'
  }

  function DropLeft(s: string, cut: char -> bool): string {
    if s != [] && cut(s[0]) then DropLeft(s[1..], cut) else s
  }

  function DropRight(s: string, cut: char -> bool): string {
    if s != [] && cut(s[|s| - 1]) then DropRight(s[..|s| - 1], cut) else s
  }

  lemma {:induction false} DropLeftBlank(s: string, cut: char -> bool)
    ensures DropLeft(s, cut) == [] <==> forall i :: 0 <= i < |s| ==> cut(s[i])
    ensures DropLeft(s, cut) != [] ==> !cut(DropLeft(s, cut)[0])
  {
    if s != [] {
      DropLeftBlank(s[1..], cut);
      assert forall i :: 0 < i < |s| ==> s[i] == s[1..][i - 1];
    }
  }

  lemma {:induction false} DropRightKeeps(s: string, cut: char -> bool)
    requires s != [] && !cut(s[0])
    ensures DropRight(s, cut) != []
  {
    if cut(s[|s| - 1]) { DropRightKeeps(s[..|s| - 1], cut); }
  }

  /** `s.strip()`. */
  function Strip(s: string): string {
    DropRight(DropLeft(s, IsSpace), IsSpace)
  }

  /** `s.strip("/")` and `s.rstrip("/")`. */
  function StripSlashes(s: string): string {
    DropRight(DropLeft(s, c => c == '/'), c => c == '/')
  }

  function RStripSlashes(s: string): string {
    DropRight(s, c => c == '/')
  }

  /** A text with no white space in it is its own `strip()`. */
  lemma StripIdentity(s: string)
    requires forall i :: 0 <= i < |s| ==> !IsSpace(s[i])
    ensures Strip(s) == s
  {
  }

  /** Nothing is left after `strip()` exactly when every character is white space. */
  lemma StripBlank(s: string)
    ensures Strip(s) == [] <==> forall i :: 0 <= i < |s| ==> IsSpace(s[i])
  {
    DropLeftBlank(s, IsSpace);
    var left := DropLeft(s, IsSpace);
    if left != [] { DropRightKeeps(left, IsSpace); }
  }

  /** `s.lower()`, exact for the ASCII letters, which is all the comparisons below need. */
  function Lower(s: string): string {
    if s == [] then []
    else [if 'A' <= s[0] <= 'Z' then (s[0] as int + 32) as char else s[0]] + Lower(s[1..])
  }

  lemma {:induction false} LowerIdentity(s: string)
    requires forall i :: 0 <= i < |s| ==> !('A' <= s[i] <= 'Z')
    ensures Lower(s) == s
  {
    if s != [] { LowerIdentity(s[1..]); }
  }

  /** `s.upper()`, exact for the ASCII letters and for the dotless i, which is all the comparisons need. */
  function Upper(s: string): string {
    if s == [] then []
    else
      [if 'a' <= s[0] <= 'z' then (s[0] as int - 32) as char else if s[0] == '\U{131}' then 'I' else s[0]] + Upper(s[1..])
  }

  /** `needle in hay`. */
  predicate Contains(hay: string, needle: string) {
    needle <= hay || (hay != [] && Contains(hay[1..], needle))
  }

  // ---- what these operations mean ------------------------------------------------------------

  /** Among the ASCII characters: tab to carriage return, the four separators, and the blank. */
  lemma AsciiSpaces(c: char)
    requires c as int < 128
    ensures IsSpace(c) <==> c as int in {9, 10, 11, 12, 13, 28, 29, 30, 31, 32}
  {
  }

  lemma {:induction false} DropLeftSkips(a: string, s: string, cut: char -> bool)
    requires forall i :: 0 <= i < |a| ==> cut(a[i])
    ensures DropLeft(a + s, cut) == DropLeft(s, cut)
  {
    if a == [] {
      assert a + s == s;
    } else {
      assert (a + s)[1..] == a[1..] + s;
      DropLeftSkips(a[1..], s, cut);
    }
  }

  lemma {:induction false} DropRightSkips(s: string, b: string, cut: char -> bool)
    requires forall i :: 0 <= i < |b| ==> cut(b[i])
    ensures DropRight(s + b, cut) == DropRight(s, cut)
  {
    if b == [] {
      assert s + b == s;
    } else {
      assert (s + b)[..|s + b| - 1] == s + b[..|b| - 1];
      DropRightSkips(s, b[..|b| - 1], cut);
    }
  }

  /** `strip()` takes the white space off both ends of a text that starts and ends with a visible character. */
  lemma StripTrims(a: string, s: string, b: string)
    requires forall i :: 0 <= i < |a| ==> IsSpace(a[i])
    requires forall i :: 0 <= i < |b| ==> IsSpace(b[i])
    requires s != "" && !IsSpace(s[0]) && !IsSpace(s[|s| - 1])
    ensures Strip(a + s + b) == s
  {
    assert a + s + b == a + (s + b);
    DropLeftSkips(a, s + b, IsSpace);
    assert DropLeft(s + b, IsSpace) == s + b;
    DropRightSkips(s, b, IsSpace);
  }

  /** And `strip("/")` and `rstrip("/")` the slashes. */
  lemma SlashesTrim(a: string, s: string, b: string)
    requires forall i :: 0 <= i < |a| ==> a[i] == '/'
    requires forall i :: 0 <= i < |b| ==> b[i] == '/'
    requires s != "" && s[0] != '/' && s[|s| - 1] != '/'
    ensures StripSlashes(a + s + b) == s && RStripSlashes(s + b) == s
  {
    assert a + s + b == a + (s + b);
    DropLeftSkips(a, s + b, c => c == '/');
    assert DropLeft(s + b, c => c == '/') == s + b;
    DropRightSkips(s, b, c => c == '/');
  }

  /** The ASCII letters change case one by one, all other ASCII characters stay. */
  lemma {:induction false} CaseByCharacter(s: string, i: nat)
    requires i < |s| && s[i] as int < 128
    ensures |Lower(s)| == |s| && Lower(s)[i] as int == if 65 <= s[i] as int <= 90 then s[i] as int + 32 else s[i] as int
    ensures |Upper(s)| == |s| && Upper(s)[i] as int == if 97 <= s[i] as int <= 122 then s[i] as int - 32 else s[i] as int
  {
    CaseLength(s);
    if i > 0 { CaseByCharacter(s[1..], i - 1); }
  }

  lemma {:induction false} CaseLength(s: string)
    ensures |Lower(s)| == |s| == |Upper(s)|
  {
    if s != [] { CaseLength(s[1..]); }
  }

  /** The hay goes on with the needle at place `i`. */
  ghost predicate OccursAt(hay: string, needle: string, i: nat) {
    i + |needle| <= |hay| && hay[i..i + |needle|] == needle
  }

  lemma OccursLater(hay: string, needle: string, i: nat)
    requires hay != []
    ensures OccursAt(hay[1..], needle, i) <==> OccursAt(hay, needle, i + 1)
  {
    if i + 1 + |needle| <= |hay| { assert hay[1..][i..i + |needle|] == hay[i + 1..i + 1 + |needle|]; }
  }

  lemma {:induction false} OccursIfContained(hay: string, needle: string)
    requires Contains(hay, needle)
    ensures exists i: nat :: OccursAt(hay, needle, i)
  {
    if needle <= hay {
      assert OccursAt(hay, needle, 0);
    } else {
      OccursIfContained(hay[1..], needle);
      var i: nat :| OccursAt(hay[1..], needle, i);
      OccursLater(hay, needle, i);
    }
  }

  lemma {:induction false} ContainedIfOccurs(hay: string, needle: string, i: nat)
    requires OccursAt(hay, needle, i)
    ensures Contains(hay, needle)
  {
    if i > 0 {
      OccursLater(hay, needle, i - 1);
      ContainedIfOccurs(hay[1..], needle, i - 1);
    }
  }

  /** The needle is somewhere in the hay. */
  lemma ContainsMeans(hay: string, needle: string)
    ensures Contains(hay, needle) <==> exists i: nat :: OccursAt(hay, needle, i)
  {
    if Contains(hay, needle) { OccursIfContained(hay, needle); }
    if i: nat :| OccursAt(hay, needle, i) { ContainedIfOccurs(hay, needle, i); }
  }
}
