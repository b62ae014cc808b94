/** ASCII string helpers: case folding, substring search and code-point order. */
module Strings {

  predicate IsUpper(c: char) { 'A' <= c <= 'Z' }

  function LowerChar(c: char): char {
    if IsUpper(c) then c + ('a' - 'A') else c
  }

  /** ASCII case folding. */
  function Lower(s: string): (r: string)
    ensures |r| == |s|
    ensures forall k :: 0 <= k < |s| ==> r[k] == LowerChar(s[k])
  {
    if s == [] then [] else [LowerChar(s[0])] + Lower(s[1..])
  }

  predicate Contains(text: string, part: string) {
    part <= text || (text != [] && Contains(text[1..], part))
  }

  /** `part` stands at position `k` of `text`. */
  predicate OccursAt(text: string, part: string, k: nat) {
    k + |part| <= |text| && text[k..k + |part|] == part
  }

  ghost predicate Occurs(text: string, part: string) {
    exists k: nat :: OccursAt(text, part, k)
  }

  lemma OccursLater(text: string, part: string)
    requires text != []
    ensures Occurs(text, part) <==> part <= text || Occurs(text[1..], part)
  {
    if part <= text { assert OccursAt(text, part, 0); }
    if k: nat :| OccursAt(text[1..], part, k) {
      assert text[k + 1..k + 1 + |part|] == text[1..][k..k + |part|];
      assert OccursAt(text, part, k + 1);
    }
    if k: nat :| OccursAt(text, part, k) {
      if k > 0 {
        assert text[1..][k - 1..k - 1 + |part|] == text[k..k + |part|];
        assert OccursAt(text[1..], part, k - 1);
      }
    }
  }

  /** Searching finds a part exactly when it stands somewhere in the text. */
  lemma {:induction false} ContainsExactly(text: string, part: string)
    ensures Contains(text, part) <==> Occurs(text, part)
  {
    if text == [] {
      if part == [] { assert OccursAt(text, part, 0); }
    } else {
      hide Occurs;
      OccursLater(text, part);
      ContainsExactly(text[1..], part);
    }
  }

  /** `str(value)[:limit]` for a non-negative limit. */
  function Truncate(s: string, limit: nat): (r: string)
    ensures |r| <= limit && r <= s
    ensures |s| <= limit ==> r == s
  {
    if |s| <= limit then s else s[..limit]
  }

  /** Code-point order on strings, as `sorted` compares them. */
  predicate StringLe(a: string, b: string) {
    if a == [] then true
    else if b == [] then false
    else if a[0] == b[0] then StringLe(a[1..], b[1..])
    else a[0] < b[0]
  }

  lemma {:induction false} StringLeTotal(a: string, b: string)
    ensures StringLe(a, b) || StringLe(b, a)
  {
    if a != [] && b != [] && a[0] == b[0] { StringLeTotal(a[1..], b[1..]); }
  }

  lemma {:induction false} StringLeAntisymmetric(a: string, b: string)
    requires StringLe(a, b) && StringLe(b, a)
    ensures a == b
  {
    if a != [] && b != [] {
      StringLeAntisymmetric(a[1..], b[1..]);
      assert a == [a[0]] + a[1..] && b == [b[0]] + b[1..];
    }
  }

  lemma {:induction false} StringLeTransitive(a: string, b: string, c: string)
    requires StringLe(a, b) && StringLe(b, c)
    ensures StringLe(a, c)
  {
    if a != [] && b != [] && c != [] && a[0] == b[0] == c[0] {
      StringLeTransitive(a[1..], b[1..], c[1..]);
    }
  }
}
