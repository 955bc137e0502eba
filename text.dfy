/**
 * The few pieces of Swift's `String` that the todo list relies on:
 * `lowercased()`, `contains(_:)` on a substring, and the decimal rendering
 * of an integer inside a string interpolation such as `"item-\(index)"`.
 * Lowercasing is modelled for ASCII letters only.
 */
module Text {

  /** Maps an ASCII upper-case letter to its lower-case form; any other character is kept. */
  function LowerChar(c: char): (r: char)
    ensures !('A' <= r <= 'Z')
    ensures 'a' <= c <= 'z' ==> r == c
  {
    if 'A' <= c <= 'Z' then (c as int + 32) as char else c
  }

  /** `s.lowercased()`: same length, and no upper-case ASCII letter is left. */
  function Lowercased(s: string): (r: string)
    ensures |r| == |s|
    ensures forall i :: 0 <= i < |r| ==> !('A' <= r[i] <= 'Z')
  {
    seq(|s|, i requires 0 <= i < |s| => LowerChar(s[i]))
  }

  /** Lowercasing an already lower-cased string changes nothing. */
  lemma LowercasedIdempotent(s: string)
    ensures Lowercased(Lowercased(s)) == Lowercased(s)
  {
    var l := Lowercased(s);
    assert forall i :: 0 <= i < |l| ==> LowerChar(l[i]) == l[i];
  }

  predicate IsPrefix(p: string, s: string) {
    |p| <= |s| && s[..|p|] == p
  }

  /** `s.contains(sub)`: `sub` occurs somewhere in `s`, tried from each start position. */
  predicate Contains(s: string, sub: string)
    ensures Contains(s, sub) ==> |sub| <= |s|
    ensures sub == [] ==> Contains(s, sub)
    decreases |s|
  {
    IsPrefix(sub, s) || (|s| > 0 && Contains(s[1..], sub))
  }

  /** `sub` occurs in `s` starting at position `i`. */
  predicate OccursAt(s: string, sub: string, i: int) {
    0 <= i <= |s| - |sub| && s[i..i + |sub|] == sub
  }

  /** `Contains` holds exactly when `sub` occurs at some position of `s`. */
  lemma {:induction false} ContainsAt(s: string, sub: string)
    ensures Contains(s, sub) <==> exists i :: OccursAt(s, sub, i)
    decreases |s|
  {
    if IsPrefix(sub, s) {
      assert OccursAt(s, sub, 0);
    } else if |s| == 0 {
      assert forall i :: !OccursAt(s, sub, i);
    } else {
      var t := s[1..];
      ContainsAt(t, sub);
      if exists i :: OccursAt(t, sub, i) {
        var i :| OccursAt(t, sub, i);
        assert s[i + 1..i + 1 + |sub|] == t[i..i + |sub|];
        assert OccursAt(s, sub, i + 1);
      }
      if exists i :: OccursAt(s, sub, i) {
        var i :| OccursAt(s, sub, i);
        if i > 0 {
          assert t[i - 1..i - 1 + |sub|] == s[i..i + |sub|];
          assert OccursAt(t, sub, i - 1);
        }
      }
    }
  }

  function DigitChar(d: nat): (c: char)
    requires d < 10
    ensures '0' <= c <= '9'
  {
    ('0' as int + d) as char
  }

  /** The decimal text of `n`, without leading zeros, as Swift interpolates an integer. */
  function Decimal(n: nat): (r: string)
    ensures |r| >= 1
    ensures n < 10 <==> |r| == 1
    ensures forall i :: 0 <= i < |r| ==> '0' <= r[i] <= '9'
    decreases n
  {
    if n < 10 then [DigitChar(n)] else Decimal(n / 10) + [DigitChar(n % 10)]
  }

  /** Distinct numbers have distinct decimal texts. */
  lemma {:induction false} DecimalInjective(a: nat, b: nat)
    requires Decimal(a) == Decimal(b)
    ensures a == b
    decreases a
  {
    if a >= 10 && b >= 10 {
      var da, db := Decimal(a), Decimal(b);
      assert da[..|da| - 1] == Decimal(a / 10);
      assert db[..|db| - 1] == Decimal(b / 10);
      DecimalInjective(a / 10, b / 10);
      assert DigitChar(a % 10) == da[|da| - 1] == db[|db| - 1] == DigitChar(b % 10);
    } else if a < 10 && b < 10 {
      assert Decimal(a)[0] == DigitChar(a);
    }
  }

  /** Texts that share a prefix and then differ in their suffix differ. */
  lemma PrefixedInjective(p: string, a: nat, b: nat)
    requires p + Decimal(a) == p + Decimal(b)
    ensures a == b
  {
    assert Decimal(a) == (p + Decimal(a))[|p|..];
    assert Decimal(b) == (p + Decimal(b))[|p|..];
    DecimalInjective(a, b);
  }
}
