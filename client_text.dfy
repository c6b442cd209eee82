/**
 * The two string helpers of the game window (QuiddlerUI): `append` adds the
 * letters of a toggled-on card to the word being built and `remove` takes
 * them out again when the card is toggled off.  Both lower-case their
 * arguments first; lower-casing is modelled on ASCII letters.
 */
module ClientText {

  predicate IsUpper(c: char) { 'A' <= c <= 'Z' }

  /** A string without upper-case ASCII letters. */
  predicate NoUpper(s: string) { forall i :: 0 <= i < |s| ==> !IsUpper(s[i]) }

  function LowerChar(c: char): (r: char)
    ensures !IsUpper(r)
    ensures !IsUpper(c) ==> r == c
  {
    if IsUpper(c) then (c as int + 32) as char else c
  }

  /** An upper-case letter becomes its lower-case partner, 32 code points further on. */
  lemma LowerCharMaps(c: char)
    ensures IsUpper(c) ==> LowerChar(c) as int == c as int + 32 && 'a' <= LowerChar(c) <= 'z'
  {
  }

  /** `ToLower` on ASCII: every letter lower-cased, every other character kept. */
  function Lower(s: string): (r: string)
    ensures |r| == |s|
    ensures forall i :: 0 <= i < |s| ==> r[i] == LowerChar(s[i])
  {
    seq(|s|, i requires 0 <= i < |s| => LowerChar(s[i]))
  }

  /** `s` occurs in `f` starting at index `i`. */
  predicate OccursAt(f: string, s: string, i: int)
  {
    0 <= i && i + |s| <= |f| && f[i..i + |s|] == s
  }

  /** `i` is the first index at which `s` occurs in `f`. */
  predicate FirstOccurrence(f: string, s: string, i: int)
  {
    OccursAt(f, s, i) && forall j :: 0 <= j < i ==> !OccursAt(f, s, j)
  }

  /**
   * `f.IndexOf(s)`: the first index where `s` occurs in `f`, or -1 when it
   * does not occur (the empty string occurs at 0).
   */
  function IndexOf(f: string, s: string): (r: int)
    ensures -1 <= r <= |f|
    ensures r == -1 <==> forall i :: !OccursAt(f, s, i)
    ensures r >= 0 ==> FirstOccurrence(f, s, r)
  {
    if |s| <= |f| && f[..|s|] == s then
      assert OccursAt(f, s, 0);
      0
    else if f == [] then
      assert !OccursAt(f, s, 0);
      -1
    else
      var k := IndexOf(f[1..], s);
      IndexOfStep(f, s, k);
      if k < 0 then -1 else k + 1
  }

  /** The first occurrence in `f` is one past the first occurrence in `f[1..]`, when `f` does not start with `s`. */
  lemma IndexOfStep(f: string, s: string, k: int)
    requires f != [] && !(|s| <= |f| && f[..|s|] == s)
    requires -1 <= k && (k == -1 <==> forall i :: !OccursAt(f[1..], s, i))
    requires k >= 0 ==> FirstOccurrence(f[1..], s, k)
    ensures k < 0 ==> forall i :: !OccursAt(f, s, i)
    ensures k >= 0 ==> FirstOccurrence(f, s, k + 1)
  {
    ShiftOccurrence(f, s);
    assert !OccursAt(f, s, 0);
    if k < 0 {
      forall i | 1 <= i ensures !OccursAt(f, s, i) { assert !OccursAt(f[1..], s, i - 1); }
    } else {
      forall j | 0 < j < k + 1 ensures !OccursAt(f, s, j) { assert !OccursAt(f[1..], s, j - 1); }
    }
  }

  lemma ShiftOccurrence(f: string, s: string)
    requires f != []
    ensures forall i :: 0 <= i ==> (OccursAt(f, s, i + 1) <==> OccursAt(f[1..], s, i))
  {
    forall i | 0 <= i
      ensures OccursAt(f, s, i + 1) <==> OccursAt(f[1..], s, i)
    {
      if i + 1 + |s| <= |f| {
        var a, b := f[i + 1..i + 1 + |s|], f[1..][i..i + |s|];
        assert |a| == |b|;
        assert forall k :: 0 <= k < |a| ==> a[k] == f[i + 1 + k] == b[k];
        assert a == b;
      }
    }
  }

  /** `append(full, sub)`: the lower-cased word with the lower-cased card letters added. */
  function Append(full: string, sub: string): (r: string)
    ensures |r| == |full| + |sub| && NoUpper(r)
    ensures r[..|full|] == Lower(full) && r[|full|..] == Lower(sub)
  {
    Lower(full) + Lower(sub)
  }

  /**
   * `remove(full, sub)`: the lower-cased word with the first occurrence of
   * the lower-cased card letters cut out, or the lower-cased word unchanged
   * when they do not occur in it.
   */
  function Remove(full: string, sub: string): (r: string)
    ensures NoUpper(r)
    ensures (forall i :: !OccursAt(Lower(full), Lower(sub), i)) ==> r == Lower(full)
    ensures forall i :: FirstOccurrence(Lower(full), Lower(sub), i) ==>
      |r| == |full| - |sub| && r == Lower(full)[..i] + Lower(full)[i + |sub|..]
  {
    var f := Lower(full);
    var s := Lower(sub);
    var k := IndexOf(f, s);
    if k < 0 then f
    else
      CutFirst(f, s, k);
      f[..k] + f[k + |s|..]
  }

  /** Cutting out the first occurrence of `s` keeps the rest of `f`, in order and without upper case. */
  lemma CutFirst(f: string, s: string, k: int)
    requires NoUpper(f) && FirstOccurrence(f, s, k)
    ensures |f[..k] + f[k + |s|..]| == |f| - |s| && NoUpper(f[..k] + f[k + |s|..])
    ensures forall i :: FirstOccurrence(f, s, i) ==> i == k
  {
    FirstOccurrenceUnique(f, s, k);
    var r := f[..k] + f[k + |s|..];
    assert forall j :: 0 <= j < |r| ==> r[j] == (if j < k then f[j] else f[j + |s|]);
  }

  lemma FirstOccurrenceUnique(f: string, s: string, k: int)
    requires FirstOccurrence(f, s, k)
    ensures forall i :: FirstOccurrence(f, s, i) ==> i == k
  {
    forall i | FirstOccurrence(f, s, i) ensures i == k {
    }
  }

  /** Lower-casing twice is lower-casing once. */
  lemma LowerIdempotent(s: string)
    ensures Lower(Lower(s)) == Lower(s)
  {
    var t := Lower(s);
    assert forall i :: 0 <= i < |t| ==> Lower(t)[i] == t[i];
  }

  /** Lower-casing a concatenation lower-cases each part. */
  lemma LowerConcat(a: string, b: string)
    ensures Lower(a + b) == Lower(a) + Lower(b)
  {
    var l, r := Lower(a + b), Lower(a) + Lower(b);
    forall i | 0 <= i < |l| ensures l[i] == r[i] {
      if i < |a| { assert (a + b)[i] == a[i]; } else { assert (a + b)[i] == b[i - |a|]; }
    }
  }

  /** Appending card letters one after another builds the same word as appending them at once. */
  lemma AppendAssociative(full: string, s1: string, s2: string)
    ensures Append(Append(full, s1), s2) == Append(full, s1 + s2)
  {
    var a, b, c := Lower(full), Lower(s1), Lower(s2);
    LowerConcat(a, b);
    LowerIdempotent(full);
    LowerIdempotent(s1);
    assert Lower(a + b) == a + b;
    LowerConcat(s1, s2);
    assert Lower(s1 + s2) == b + c;
    assert (a + b) + c == a + (b + c);
  }

  /**
   * Toggling a card on and off again restores the lower-cased word, provided
   * its letters do not already occur in the word before the appended copy.
   */
  lemma RemoveUndoesAppend(full: string, sub: string)
    requires forall i :: 0 <= i < |full| ==> !OccursAt(Append(full, sub), Lower(sub), i)
    ensures Remove(Append(full, sub), sub) == Lower(full)
  {
    var w := Append(full, sub);
    var s := Lower(sub);
    LowerIdempotent(full);
    LowerIdempotent(sub);
    LowerConcat(Lower(full), s);
    assert Lower(w) == w;
    assert Lower(s) == s;
    assert w[|full|..|full| + |sub|] == s;
    assert FirstOccurrence(w, s, |full|);
    assert w[..|full|] == Lower(full);
    assert w[|full| + |sub|..] == [];
  }
}
