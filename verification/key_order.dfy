/**
 How two sort keys compare.  Keys are compared the way Python compares
 lists: element by element up to the first difference, a proper prefix
 before the longer list.  Two integers compare numerically, two strings by
 code point, and an integer against a string raises a TypeError, modelled
 here as `None`.
 */
module KeyOrder {
  import opened Common
  import opened NaturalKey

  // Every lemma here is marked {:induction false}, the non-recursive ones too:
  // otherwise Dafny adds an automatic induction hypothesis to each proof, and
  // over sequence parameters that quantifier makes the solver far slower.

  /** `a < b` on strings: lexicographic by code point. */
  function TextLess(a: string, b: string): bool {
    if |b| == 0 then false
    else if |a| == 0 then true
    else if a[0] != b[0] then a[0] < b[0]
    else TextLess(a[1..], b[1..])
  }

  /** `x < y` on two key elements; `None` when an integer meets a string. */
  function TokenLess(x: Token, y: Token): Option<bool> {
    match (x, y)
    case (Num(m), Num(n)) => Some(m < n)
    case (Text(s), Text(t)) => Some(TextLess(s, t))
    case _ => None
  }

  /** `a < b` on two keys; `None` when the comparison raises. */
  function KeyLess(a: seq<Token>, b: seq<Token>): Option<bool> {
    if |a| == 0 || |b| == 0 then Some(|a| < |b|)
    else if a[0] != b[0] then TokenLess(a[0], b[0])
    else KeyLess(a[1..], b[1..])
  }

  /** The comparison succeeded and found `a` before `b`. */
  predicate Lt(a: seq<Token>, b: seq<Token>) {
    KeyLess(a, b) == Some(true)
  }

  /** The sort order on paths. */
  predicate Precedes(p: string, q: string) {
    Lt(Key(p), Key(q))
  }

  /** At every position both keys have, both hold an integer or both a string. */
  predicate Aligned(a: seq<Token>, b: seq<Token>) {
    forall i :: 0 <= i < |a| && i < |b| ==> (a[i].Num? <==> b[i].Num?)
  }

  // ---------------------------------------------------------------------
  // Strings
  // ---------------------------------------------------------------------

  lemma {:induction false} TextLessIrreflexive(a: string)
    ensures !TextLess(a, a)
  {
    if |a| > 0 {
      TextLessIrreflexive(a[1..]);
    }
  }

  lemma {:induction false} TextLessAsymmetric(a: string, b: string)
    requires TextLess(a, b)
    ensures !TextLess(b, a)
  {
    if |a| > 0 && |b| > 0 && a[0] == b[0] {
      TextLessAsymmetric(a[1..], b[1..]);
    }
  }

  lemma {:induction false} TextLessTransitive(a: string, b: string, c: string)
    requires TextLess(a, b) && TextLess(b, c)
    ensures TextLess(a, c)
  {
    if |a| > 0 && a[0] == b[0] && b[0] == c[0] {
      TextLessTransitive(a[1..], b[1..], c[1..]);
    }
  }

  lemma {:induction false} TextLessTotal(a: string, b: string)
    requires a != b
    ensures TextLess(a, b) || TextLess(b, a)
  {
    if |a| > 0 && |b| > 0 && a[0] == b[0] {
      assert a == [a[0]] + a[1..] && b == [b[0]] + b[1..];
      TextLessTotal(a[1..], b[1..]);
    }
  }

  // ---------------------------------------------------------------------
  // Keys
  // ---------------------------------------------------------------------

  /** Aligned keys never compare an integer with a string. */
  lemma {:induction false} AlignedNeverRaises(a: seq<Token>, b: seq<Token>)
    requires Aligned(a, b)
    ensures KeyLess(a, b).Some?
  {
    if |a| > 0 && |b| > 0 {
      if a[0] == b[0] {
        assert Aligned(a[1..], b[1..]) by {
          forall i | 0 <= i < |a| - 1 && i < |b| - 1
            ensures a[1..][i].Num? <==> b[1..][i].Num?
          {
            assert a[1..][i] == a[i + 1] && b[1..][i] == b[i + 1];
          }
        }
        AlignedNeverRaises(a[1..], b[1..]);
      }
    }
  }

  /** Keys of any two paths are aligned: integers sit at the odd positions. */
  lemma {:induction false} KeysAligned(p: string, q: string)
    ensures Aligned(Key(p), Key(q))
  {
    KeyShape(p);
    KeyShape(q);
  }

  /** Comparing the keys of two paths never raises. */
  lemma {:induction false} KeyComparisonNeverRaises(p: string, q: string)
    ensures KeyLess(Key(p), Key(q)).Some?
  {
    KeysAligned(p, q);
    AlignedNeverRaises(Key(p), Key(q));
  }

  lemma {:induction false} LtIrreflexive(a: seq<Token>)
    ensures !Lt(a, a)
  {
    if |a| > 0 {
      LtIrreflexive(a[1..]);
    }
  }

  lemma {:induction false} LtAsymmetric(a: seq<Token>, b: seq<Token>)
    requires Lt(a, b)
    ensures !Lt(b, a)
  {
    if |a| > 0 && |b| > 0 {
      if a[0] == b[0] {
        LtAsymmetric(a[1..], b[1..]);
      } else if a[0].Text? && b[0].Text? {
        TextLessAsymmetric(a[0].text, b[0].text);
      }
    }
  }

  lemma {:induction false} TokenLessTransitive(x: Token, y: Token, z: Token)
    requires TokenLess(x, y) == Some(true) && TokenLess(y, z) == Some(true)
    ensures TokenLess(x, z) == Some(true)
  {
    if x.Text? {
      TextLessTransitive(x.text, y.text, z.text);
    }
  }

  lemma {:induction false} LtTransitive(a: seq<Token>, b: seq<Token>, c: seq<Token>)
    requires Lt(a, b) && Lt(b, c)
    ensures Lt(a, c)
  {
    if |a| > 0 {
      if a[0] == b[0] && b[0] == c[0] {
        LtTransitive(a[1..], b[1..], c[1..]);
      } else if a[0] != b[0] && b[0] != c[0] {
        if a[0] == c[0] {
          if a[0].Text? {
            TextLessAsymmetric(a[0].text, b[0].text);
          }
          assert false;
        }
        TokenLessTransitive(a[0], b[0], c[0]);
      }
    }
  }

  /** Distinct aligned keys are always ordered one way or the other. */
  lemma {:induction false} LtTotal(a: seq<Token>, b: seq<Token>)
    requires Aligned(a, b)
    ensures a == b || Lt(a, b) || Lt(b, a)
  {
    if |a| > 0 && |b| > 0 {
      if a[0] == b[0] {
        assert Aligned(a[1..], b[1..]) by {
          forall i | 0 <= i < |a| - 1 && i < |b| - 1
            ensures a[1..][i].Num? <==> b[1..][i].Num?
          {
            assert a[1..][i] == a[i + 1] && b[1..][i] == b[i + 1];
          }
        }
        LtTotal(a[1..], b[1..]);
        if a[1..] == b[1..] {
          assert a == [a[0]] + a[1..] && b == [b[0]] + b[1..];
        }
      } else if a[0].Text? {
        assert b[0].Text? by {
          assert a[0].Num? <==> b[0].Num?;
        }
        TextLessTotal(a[0].text, b[0].text);
      } else {
        assert b[0].Num? by {
          assert a[0].Num? <==> b[0].Num?;
        }
      }
    }
  }

  // ---------------------------------------------------------------------
  // The order on paths
  // ---------------------------------------------------------------------

  /** Any two paths are ordered one way or the other, or have equal keys,
      and never both ways. */
  lemma {:induction false} PrecedesTrichotomy(p: string, q: string)
    ensures Key(p) == Key(q) || Precedes(p, q) || Precedes(q, p)
    ensures !(Precedes(p, q) && Precedes(q, p))
    ensures Key(p) == Key(q) ==> !Precedes(p, q)
  {
    KeysAligned(p, q);
    LtTotal(Key(p), Key(q));
    if Precedes(p, q) {
      LtAsymmetric(Key(p), Key(q));
    }
    LtIrreflexive(Key(p));
  }

  /** Two names that share a leading text run and differ in the value of the
      following digit run are ordered by that value, whatever follows. */
  lemma {:induction false} DigitRunsCompareNumerically(t: string, d1: string, r1: string, d2: string, r2: string)
    requires NoDigit(t)
    requires |d1| > 0 && AllDigits(d1) && |d2| > 0 && AllDigits(d2)
    requires |r1| == 0 || !IsDigit(r1[0])
    requires |r2| == 0 || !IsDigit(r2[0])
    requires DecimalValue(d1) < DecimalValue(d2)
    ensures Lt(NameKey(t + d1 + r1), NameKey(t + d2 + r2))
  {
    NameKeyRuns(t, d1, r1);
    NameKeyRuns(t, d2, r2);
    var a, b := NameKey(t + d1 + r1), NameKey(t + d2 + r2);
    assert a[0] == b[0];
    assert a[1..][0] == Num(DecimalValue(d1)) && b[1..][0] == Num(DecimalValue(d2));
  }

  /** The same, for names in a directory. */
  lemma {:induction false} PathsCompareNumerically(dir: string, t: string, d1: string, r1: string, d2: string, r2: string)
    requires NoDigit(t)
    requires |d1| > 0 && AllDigits(d1) && |d2| > 0 && AllDigits(d2)
    requires |r1| == 0 || !IsDigit(r1[0])
    requires |r2| == 0 || !IsDigit(r2[0])
    requires Separator !in t + d1 + r1 && Separator !in t + d2 + r2
    requires DecimalValue(d1) < DecimalValue(d2)
    ensures Precedes(dir + [Separator] + (t + d1 + r1), dir + [Separator] + (t + d2 + r2))
    ensures !Precedes(dir + [Separator] + (t + d2 + r2), dir + [Separator] + (t + d1 + r1))
  {
    var p1, p2 := dir + [Separator] + (t + d1 + r1), dir + [Separator] + (t + d2 + r2);
    KeyIgnoresDirectory(dir, t + d1 + r1);
    KeyIgnoresDirectory(dir, t + d2 + r2);
    BasenameOfPlainName(t + d1 + r1);
    BasenameOfPlainName(t + d2 + r2);
    DigitRunsCompareNumerically(t, d1, r1, d2, r2);
    LtAsymmetric(Key(p1), Key(p2));
  }

  /** "img2.png" sorts strictly before "img10.png", in any directory. */
  lemma {:induction false} TwoBeforeTen(dir: string, two: string, ten: string)
    // The names are parameters fixed by `requires` rather than literals in
    // the ensures: the solver would otherwise evaluate the key of each literal
    // character by character, which is far more costly.
    requires two == "img2.png" && ten == "img10.png"
    ensures Precedes(dir + [Separator] + two, dir + [Separator] + ten)
    ensures !Precedes(dir + [Separator] + ten, dir + [Separator] + two)
  {
    var t, r := "img", ".png";
    assert NoDigit(t) && !IsDigit(r[0]);
    assert "10"[..1] == "1" && "1"[..0] == "" && "2"[..0] == "";
    assert DecimalValue("2") == 2 && DecimalValue("10") == 10;
    assert two == t + "2" + r;
    assert ten == t + "10" + r;
    PathsCompareNumerically(dir, t, "2", r, "10", r);
  }

  /** "img007.png" and "img7.png" have equal keys, so neither precedes the other. */
  lemma {:induction false} LeadingZerosTie(padded: string, plain: string)
    // The names are parameters fixed by `requires` rather than literals in
    // the ensures: the solver would otherwise evaluate the key of each literal
    // character by character, which is far more costly.
    requires padded == "img007.png" && plain == "img7.png"
    ensures Key(padded) == Key(plain)
    ensures !Precedes(padded, plain) && !Precedes(plain, padded)
  {
    var t, seven, r := "img", "7", ".png";
    var zeros := "0" + ("0" + seven);
    assert NoDigit(t) && !IsDigit(r[0]) && AllDigits(seven);
    LeadingZeroIgnored(seven);
    LeadingZeroIgnored("0" + seven);
    assert padded == t + zeros + r;
    assert plain == t + seven + r;
    assert Separator !in padded && Separator !in plain;
    BasenameOfPlainName(padded);
    BasenameOfPlainName(plain);
    EqualValuesEqualKeys(t, zeros, seven, r);
    LtIrreflexive(Key(plain));
  }

  /** "IMG1.PNG" and "img1.png" have equal keys. */
  lemma {:induction false} LetterCaseTie(upper: string, lower: string)
    // The names are parameters fixed by `requires` rather than literals in
    // the ensures: the solver would otherwise evaluate the key of each literal
    // character by character, which is far more costly.
    requires upper == "IMG1.PNG" && lower == "img1.png"
    ensures Key(upper) == Key(lower)
    ensures !Precedes(upper, lower) && !Precedes(lower, upper)
  {
    assert Lower(upper) == Lower(lower);
    KeyIgnoresCase(upper, lower);
    LtIrreflexive(Key(lower));
  }
}
