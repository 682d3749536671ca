/**
 The calculator's display buffer as a string: the glyph normalisation that
 runs before a submit, the character whitelist, and the three primitive edits
 (append, clear, delete-last) the buttons and the keyboard are wired to.
 */
module Display {

  /** The multiplication glyph the display shows in place of `*`. */
  const Times: char := '×'
  /** The division glyph a display button may insert in place of `/`. */
  const Divide: char := '÷'
  /** What the display shows after a rejected submit. */
  const ErrorText: string := "Ошибка"

  predicate IsDigit(c: char) {
    '0' <= c <= '9'
  }

  /** The whitelist `0-9 + - * / ( ) .` a normalised expression must stay inside. */
  predicate Allowed(c: char) {
    IsDigit(c) || c == '+' || c == '-' || c == '*' || c == '/' || c == '(' || c == ')' || c == '.'
  }

  predicate PassesWhitelist(s: string) {
    forall i :: 0 <= i < |s| ==> Allowed(s[i])
  }

  /** Unanchored search for one character class, as a regular expression
      made of a single bracket class tests a string. */
  function ClassTest(s: string, member: char -> bool): (found: bool)
    ensures found <==> exists i :: 0 <= i < |s| && member(s[i])
  {
    if s == [] then false
    else if member(s[0]) then true
    else
      var rest := ClassTest(s[1..], member);
      assert forall i :: 1 <= i < |s| ==> s[i] == s[1..][i - 1];
      rest
  }

  /** The whitelist test: true when some character lies outside it. */
  function ContainsDisallowed(s: string): (found: bool)
    ensures found <==> !PassesWhitelist(s)
  {
    ClassTest(s, c => !Allowed(c))
  }

  function NormaliseChar(c: char): char {
    if c == Times then '*' else if c == Divide then '/' else c
  }

  /** Replaces every `×` by `*` and every `÷` by `/`, one character at a time. */
  function Normalise(s: string): (r: string)
    ensures |r| == |s|
    ensures forall i :: 0 <= i < |s| && s[i] == Times ==> r[i] == '*'
    ensures forall i :: 0 <= i < |s| && s[i] == Divide ==> r[i] == '/'
    ensures forall i :: 0 <= i < |s| && s[i] != Times && s[i] != Divide ==> r[i] == s[i]
    ensures Times !in r && Divide !in r
  {
    if s == [] then [] else [NormaliseChar(s[0])] + Normalise(s[1..])
  }

  /** Normalising twice is normalising once. */
  lemma NormaliseIdempotent(s: string)
    ensures Normalise(Normalise(s)) == Normalise(s)
  {
    var n := Normalise(s);
    var m := Normalise(n);
    assert forall i :: 0 <= i < |n| ==> n[i] != Times && n[i] != Divide;
    assert forall i :: 0 <= i < |n| ==> m[i] == n[i];
  }

  /** A string without display glyphs, such as any expression inside the
      whitelist, is left as it is. */
  lemma NormaliseFixesCanonical(s: string)
    requires Times !in s && Divide !in s
    ensures Normalise(s) == s
  {
    var n := Normalise(s);
    assert forall i :: 0 <= i < |s| ==> n[i] == s[i];
  }

  /** Normalisation works character by character, so it distributes over concatenation. */
  lemma NormaliseAppend(a: string, b: string)
    ensures Normalise(a + b) == Normalise(a) + Normalise(b)
  {
    var l := Normalise(a + b);
    var r := Normalise(a) + Normalise(b);
    assert forall i :: 0 <= i < |a| ==> (a + b)[i] == a[i];
    assert forall i :: |a| <= i < |a| + |b| ==> (a + b)[i] == b[i - |a|];
    assert forall i :: 0 <= i < |l| ==> l[i] == r[i];
  }

  /** Appending a value to the display: its text, after the old text. */
  function AppendToDisplay(display: string, value: string): (r: string)
    ensures |r| == |display| + |value|
    ensures r[..|display|] == display && r[|display|..] == value
  {
    display + value
  }

  /** Clearing the display empties it. */
  function ClearDisplay(): (r: string)
    ensures |r| == 0
  {
    ""
  }

  /** Dropping the last character, the way `slice(0, -1)` does, which also
      turns the empty string into itself. */
  function DeleteLast(display: string): (r: string)
    ensures |display| == 0 ==> r == display
    ensures |display| > 0 ==> r + [display[|display| - 1]] == display
  {
    if |display| == 0 then display else display[..|display| - 1]
  }

  /** The whitelist is closed under taking a prefix. */
  lemma WhitelistPrefix(s: string, n: nat)
    requires n <= |s| && PassesWhitelist(Normalise(s))
    ensures PassesWhitelist(Normalise(s[..n]))
  {
    var p := Normalise(s[..n]);
    var whole := Normalise(s);
    forall i | 0 <= i < n
      ensures Allowed(p[i])
    {
      assert s[..n][i] == s[i];
      assert p[i] == whole[i];
    }
  }
}
