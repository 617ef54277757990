/**
 The natural sort key of a file path: the basename is cut into alternating
 runs of text and decimal digits, digit runs become integers and text runs
 are lower-cased.  Characters are restricted to ASCII semantics: a digit is
 '0'..'9' and lower-casing maps 'A'..'Z' only.
 */
module NaturalKey {

  // Every lemma here is marked {:induction false}, the non-recursive ones too:
  // otherwise Dafny adds an automatic induction hypothesis to each proof, and
  // over sequence parameters that quantifier makes the solver far slower.

  /** The path separator of POSIX paths. */
  const Separator: char := '/'

  predicate IsDigit(c: char) {
    '0' <= c <= '9'
  }

  predicate AllDigits(s: string) {
    forall i :: 0 <= i < |s| ==> IsDigit(s[i])
  }

  predicate NoDigit(s: string) {
    forall i :: 0 <= i < |s| ==> !IsDigit(s[i])
  }

  /** A run without digits never reads as a number. */
  lemma {:induction false} TextIsNotNumber(s: string)
    requires NoDigit(s)
    ensures !(|s| > 0 && AllDigits(s))
  {
    if |s| > 0 {
      assert !IsDigit(s[0]);
    }
  }

  // ---------------------------------------------------------------------
  // Basename
  // ---------------------------------------------------------------------

  /** `name` is the last component of `path`: a separator-free suffix that is
      either all of `path` or directly preceded by a separator. */
  predicate IsBasename(path: string, name: string) {
    && Separator !in name
    && |name| <= |path|
    && path[|path| - |name|..] == name
    && (|name| == |path| || path[|path| - |name| - 1] == Separator)
  }

  /** The part of `path` after its last separator. */
  function Basename(path: string): string {
    if |path| == 0 || path[|path| - 1] == Separator then ""
    else Basename(path[..|path| - 1]) + [path[|path| - 1]]
  }

  /** `Basename` returns the last component. */
  lemma {:induction false} BasenameIsBasename(path: string)
    ensures IsBasename(path, Basename(path))
  {
    if |path| > 0 && path[|path| - 1] != Separator {
      var init := path[..|path| - 1];
      var b := Basename(init);
      BasenameIsBasename(init);
      assert path == init + [path[|path| - 1]];
      assert path[|path| - |b| - 1..] == init[|init| - |b|..] + [path[|path| - 1]];
      if |b| < |init| {
        assert path[|path| - |b| - 2] == init[|init| - |b| - 1];
      }
    }
  }

  /** The last component of a path is determined by the characterisation. */
  lemma {:induction false} BasenameUnique(path: string, name: string)
    requires IsBasename(path, name)
    ensures name == Basename(path)
  {
    if |name| > 0 {
      var init, front := path[..|path| - 1], name[..|name| - 1];
      assert name[|name| - 1] == path[|path| - 1];
      forall k | 0 <= k < |front|
        ensures init[|init| - |front|..][k] == front[k]
      {
        assert path[|path| - |name|..][k] == name[k];
      }
      assert Separator !in front by {
        assert name == front + [name[|name| - 1]];
      }
      if |front| < |init| {
        assert init[|init| - |front| - 1] == path[|path| - |name| - 1];
      }
      BasenameUnique(init, front);
      assert name == front + [name[|name| - 1]];
    }
  }

  /** Prefixing a directory does not change the last component. */
  lemma {:induction false} BasenameUnderDirectory(dir: string, path: string)
    ensures Basename(dir + [Separator] + path) == Basename(path)
  {
    var full := dir + [Separator] + path;
    var b := Basename(path);
    BasenameIsBasename(path);
    assert full[|full| - |path|..] == path;
    assert full[|full| - |b|..] == b by {
      assert full[|full| - |b|..] == path[|path| - |b|..];
    }
    if |b| == |path| {
      assert full[|full| - |b| - 1] == Separator;
    } else {
      assert full[|full| - |b| - 1] == path[|path| - |b| - 1];
    }
    BasenameUnique(full, b);
  }

  /** A path without separators is its own last component. */
  lemma {:induction false} BasenameOfPlainName(name: string)
    requires Separator !in name
    ensures Basename(name) == name
  {
    assert name[0..] == name;
    BasenameUnique(name, name);
  }

  // ---------------------------------------------------------------------
  // Splitting into digit and text runs
  // ---------------------------------------------------------------------

  /** Joins the runs back into one string. */
  function Concat(parts: seq<string>): string {
    if |parts| == 0 then "" else parts[0] + Concat(parts[1..])
  }

  lemma {:induction false} ConcatCons(x: string, q: seq<string>)
    ensures Concat([x] + q) == x + Concat(q)
  {
    assert ([x] + q)[1..] == q;
  }

  /** Runs at even positions (the text runs) contain no digit. */
  predicate TextRunsHaveNoDigit(parts: seq<string>) {
    forall i :: 0 <= i < |parts| && i % 2 == 0 ==> NoDigit(parts[i])
  }

  /** Runs at odd positions (the digit runs) are non-empty and all digits. */
  predicate DigitRunsAreNumbers(parts: seq<string>) {
    forall i :: 0 <= i < |parts| && i % 2 == 1 ==> |parts[i]| > 0 && AllDigits(parts[i])
  }

  /** Only the first and the last text run may be empty. */
  predicate InnerTextRunsNonEmpty(parts: seq<string>) {
    forall i :: 0 < i < |parts| - 1 && i % 2 == 0 ==> |parts[i]| > 0
  }

  /** The reference shape of a split by a capturing digit-run pattern: an odd
      number of runs that join back to `name`, text runs without digits,
      digit runs non-empty and all digits, and only the first and last text
      runs possibly empty. */
  predicate IsRunSplit(name: string, parts: seq<string>) {
    && |parts| % 2 == 1
    && Concat(parts) == name
    && TextRunsHaveNoDigit(parts)
    && DigitRunsAreNumbers(parts)
    && InnerTextRunsNonEmpty(parts)
  }

  /** Length of the longest prefix of `s` whose characters are all digits
      (`digits`) or all non-digits (`!digits`). */
  function RunLength(s: string, digits: bool): (n: nat)
    ensures n <= |s|
  {
    if |s| == 0 || IsDigit(s[0]) != digits then 0
    else 1 + RunLength(s[1..], digits)
  }

  /** The run is as long as possible: every character in it has the kind,
      and the character after it, if any, does not. */
  lemma {:induction false} RunLengthMaximal(s: string, digits: bool)
    ensures forall i :: 0 <= i < RunLength(s, digits) ==> IsDigit(s[i]) == digits
    ensures RunLength(s, digits) == |s| || IsDigit(s[RunLength(s, digits)]) != digits
  {
    if |s| > 0 && IsDigit(s[0]) == digits {
      RunLengthMaximal(s[1..], digits);
      assert forall i :: 0 < i <= |s[1..]| ==> s[i] == s[1..][i - 1];
    }
  }

  /** A run followed by the end or by a character of the other kind is the
      longest run. */
  lemma {:induction false} RunLengthOf(x: string, y: string, digits: bool)
    requires forall i :: 0 <= i < |x| ==> IsDigit(x[i]) == digits
    requires |y| == 0 || IsDigit(y[0]) != digits
    ensures RunLength(x + y, digits) == |x|
  {
    RunLengthMaximal(x + y, digits);
    assert forall i :: 0 <= i < |x| ==> (x + y)[i] == x[i];
    assert |y| > 0 ==> (x + y)[|x|] == y[0];
  }

  /** The runs of `name` in the order `re.split(r"(\d+)", name)` returns them:
      text, digits, text, ..., text. */
  function Split(name: string): (parts: seq<string>)
    decreases |name|
  {
    var t := RunLength(name, false);
    if t == |name| then [name]
    else
      var d := RunLength(name[t..], true);
      assert d > 0 by {
        RunLengthMaximal(name, false);
        assert IsDigit(name[t..][0]);
      }
      [name[..t], name[t..t + d]] + Split(name[t + d..])
  }

  lemma {:induction false} ConcatRuns(t: string, d: string, q: seq<string>)
    ensures Concat([t, d] + q) == t + d + Concat(q)
  {
    assert [t, d] + q == [t] + ([d] + q);
    ConcatCons(t, [d] + q);
    ConcatCons(d, q);
  }

  // Taking a text run and a digit run off the front of the runs, or putting
  // them on, one part of the reference shape at a time.

  lemma {:induction false} TextRunsTail(t: string, d: string, q: seq<string>)
    requires TextRunsHaveNoDigit([t, d] + q)
    ensures NoDigit(t) && TextRunsHaveNoDigit(q)
  {
    var p := [t, d] + q;
    assert p[0] == t;
    forall i | 0 <= i < |q| && i % 2 == 0
      ensures NoDigit(q[i])
    {
      assert q[i] == p[i + 2];
    }
  }

  lemma {:induction false} TextRunsPrepend(t: string, d: string, q: seq<string>)
    requires NoDigit(t) && TextRunsHaveNoDigit(q)
    ensures TextRunsHaveNoDigit([t, d] + q)
  {
    var p := [t, d] + q;
    forall i | 0 <= i < |p| && i % 2 == 0
      ensures NoDigit(p[i])
    {
      if i >= 2 {
        assert p[i] == q[i - 2];
      }
    }
  }

  lemma {:induction false} DigitRunsTail(t: string, d: string, q: seq<string>)
    requires DigitRunsAreNumbers([t, d] + q)
    ensures |d| > 0 && AllDigits(d) && DigitRunsAreNumbers(q)
  {
    var p := [t, d] + q;
    assert p[1] == d;
    forall i | 0 <= i < |q| && i % 2 == 1
      ensures |q[i]| > 0 && AllDigits(q[i])
    {
      assert q[i] == p[i + 2];
    }
  }

  lemma {:induction false} DigitRunsPrepend(t: string, d: string, q: seq<string>)
    requires |d| > 0 && AllDigits(d) && DigitRunsAreNumbers(q)
    ensures DigitRunsAreNumbers([t, d] + q)
  {
    var p := [t, d] + q;
    forall i | 0 <= i < |p| && i % 2 == 1
      ensures |p[i]| > 0 && AllDigits(p[i])
    {
      if i >= 2 {
        assert p[i] == q[i - 2];
      }
    }
  }

  lemma {:induction false} InnerTextRunsTail(t: string, d: string, q: seq<string>)
    requires InnerTextRunsNonEmpty([t, d] + q)
    ensures InnerTextRunsNonEmpty(q) && (|q| > 1 ==> |q[0]| > 0)
  {
    var p := [t, d] + q;
    forall i | 0 <= i < |q| - 1 && i % 2 == 0
      ensures |q[i]| > 0
    {
      assert q[i] == p[i + 2];
    }
  }

  lemma {:induction false} InnerTextRunsPrepend(t: string, d: string, q: seq<string>)
    requires InnerTextRunsNonEmpty(q) && (|q| > 1 ==> |q[0]| > 0)
    ensures InnerTextRunsNonEmpty([t, d] + q)
  {
    var p := [t, d] + q;
    forall i | 0 < i < |p| - 1 && i % 2 == 0
      ensures |p[i]| > 0
    {
      assert p[i] == q[i - 2];
    }
  }

  /** Dropping one text run and one digit run from the front keeps the
      reference shape. */
  lemma {:induction false} RunSplitTail(t: string, d: string, q: seq<string>)
    requires IsRunSplit(t + d + Concat(q), [t, d] + q)
    ensures NoDigit(t) && |d| > 0 && AllDigits(d)
    ensures IsRunSplit(Concat(q), q)
    ensures |q| > 1 ==> |q[0]| > 0
  {
    TextRunsTail(t, d, q);
    DigitRunsTail(t, d, q);
    InnerTextRunsTail(t, d, q);
  }

  /** Putting a text run and a digit run in front of the reference shape
      keeps it, provided the old first text run is not left empty inside. */
  lemma {:induction false} RunSplitPrepend(t: string, d: string, q: seq<string>)
    requires NoDigit(t) && |d| > 0 && AllDigits(d)
    requires IsRunSplit(Concat(q), q)
    requires |q| > 1 ==> |q[0]| > 0
    ensures IsRunSplit(t + d + Concat(q), [t, d] + q)
  {
    var p := [t, d] + q;
    assert |p| == |q| + 2;
    ConcatRuns(t, d, q);
    TextRunsPrepend(t, d, q);
    DigitRunsPrepend(t, d, q);
    InnerTextRunsPrepend(t, d, q);
    assert Concat(p) == t + d + Concat(q);
  }

  /** In the reference shape, when more than one run is present, the name is
      not empty and the first text run is empty exactly when the name starts
      with a digit. */
  lemma {:induction false} RunSplitHead(name: string, q: seq<string>)
    requires IsRunSplit(name, q)
    requires |q| > 1
    ensures |name| > 0
    ensures |q[0]| > 0 <==> !IsDigit(name[0])
  {
    assert q == [q[0], q[1]] + q[2..];
    ConcatRuns(q[0], q[1], q[2..]);
    assert q[0] == q[0] && |q[1]| > 0 && AllDigits(q[1]);
    if |q[0]| > 0 {
      assert name[0] == q[0][0];
    } else {
      assert name[0] == q[1][0];
    }
  }

  /** The run of the other kind that starts where the first run ends. */
  lemma {:induction false} RunAfter(s: string, t: nat, digits: bool)
    requires t <= |s|
    ensures var n := RunLength(s[t..], digits);
            && t + n <= |s|
            && (forall i :: t <= i < t + n ==> IsDigit(s[i]) == digits)
            && (t + n == |s| || IsDigit(s[t + n]) != digits)
  {
    var n := RunLength(s[t..], digits);
    RunLengthMaximal(s[t..], digits);
    assert forall i :: t <= i < t + n ==> s[i] == s[t..][i - t];
    if t + n < |s| {
      assert s[t + n] == s[t..][n];
    }
  }

  /** A text run, a digit run and the rest, cut at positions `t` and `t + d`,
      as strings of their own. */
  lemma {:induction false} FrontRuns(name: string, t: nat, d: nat)
    requires 0 < d && t + d <= |name|
    requires forall i :: 0 <= i < t ==> !IsDigit(name[i])
    requires forall i :: t <= i < t + d ==> IsDigit(name[i])
    requires t + d == |name| || !IsDigit(name[t + d])
    ensures NoDigit(name[..t])
    ensures AllDigits(name[t..t + d])
    ensures name == name[..t] + name[t..t + d] + name[t + d..]
    ensures |name[t + d..]| == 0 || !IsDigit(name[t + d..][0])
  {
    var text, digits, rest := name[..t], name[t..t + d], name[t + d..];
    forall i | 0 <= i < t
      ensures !IsDigit(text[i])
    {
      assert text[i] == name[i];
    }
    forall i | 0 <= i < d
      ensures IsDigit(digits[i])
    {
      assert digits[i] == name[t + i];
    }
    if t + d < |name| {
      assert rest[0] == name[t + d];
    }
    assert name[t..] == digits + rest;
    assert name == text + name[t..];
  }

  /** `Split` produces the reference shape. */
  lemma {:induction false} SplitIsRunSplit(name: string)
    ensures IsRunSplit(name, Split(name))
    decreases |name|
  {
    var t := RunLength(name, false);
    RunLengthMaximal(name, false);
    if t == |name| {
      assert NoDigit(name);
      ConcatCons(name, []);
      assert [name] + [] == [name];
    } else {
      var d := RunLength(name[t..], true);
      RunAfter(name, t, true);
      assert IsDigit(name[t..][0]);
      FrontRuns(name, t, d);
      var r := name[t + d..];
      var q := Split(r);
      SplitIsRunSplit(r);
      if |q| > 1 {
        RunSplitHead(r, q);
      }
      RunSplitPrepend(name[..t], name[t..t + d], q);
    }
  }

  /** The reference shape admits exactly one split: `Split`'s. */
  lemma {:induction false} RunSplitUnique(name: string, parts: seq<string>)
    requires IsRunSplit(name, parts)
    ensures parts == Split(name)
    decreases |parts|
  {
    if |parts| == 1 {
      var n := parts[0];
      assert NoDigit(n);
      assert parts == [n] + [];
      ConcatCons(n, []);
      assert name == n + "" == n;
      RunLengthOf(name, "", false);
      assert name + "" == name;
    } else {
      var t, d, q := parts[0], parts[1], parts[2..];
      assert parts == [t, d] + q;
      ConcatRuns(t, d, q);
      RunSplitTail(t, d, q);
      var rest := d + Concat(q);
      assert name == t + rest;
      // the text run ends where the digit run starts
      assert rest[0] == d[0];
      RunLengthOf(t, rest, false);
      assert name[RunLength(name, false)..] == rest;
      // the digit run ends where the next text run starts
      if |Concat(q)| > 0 {
        if |q| > 1 {
          RunSplitHead(Concat(q), q);
        } else {
          assert q == [q[0]] + [];
          ConcatCons(q[0], []);
          assert Concat(q)[0] == q[0][0];
        }
      }
      RunLengthOf(d, Concat(q), true);
      assert rest[RunLength(rest, true)..] == Concat(q);
      RunSplitUnique(Concat(q), q);
    }
  }

  /** Splitting a text run, a digit run and a remainder that does not start
      with a digit peels the two runs off the front. */
  lemma {:induction false} SplitRuns(t: string, d: string, r: string)
    requires NoDigit(t) && |d| > 0 && AllDigits(d)
    requires |r| == 0 || !IsDigit(r[0])
    ensures Split(t + d + r) == [t, d] + Split(r)
  {
    SplitIsRunSplit(r);
    if |Split(r)| > 1 {
      RunSplitHead(r, Split(r));
    }
    RunSplitPrepend(t, d, Split(r));
    RunSplitUnique(t + d + r, [t, d] + Split(r));
  }

  // ---------------------------------------------------------------------
  // Digit runs as integers, text runs lower-cased
  // ---------------------------------------------------------------------

  /** The integer a run of decimal digits denotes (leading zeros ignored). */
  function DecimalValue(d: string): nat
    requires AllDigits(d)
  {
    if |d| == 0 then 0
    else 10 * DecimalValue(d[..|d| - 1]) + (d[|d| - 1] as int - '0' as int)
  }

  /** A zero in front of a digit run does not change its value. */
  lemma {:induction false} LeadingZeroIgnored(d: string)
    requires AllDigits(d)
    ensures AllDigits("0" + d) && DecimalValue("0" + d) == DecimalValue(d)
  {
    if |d| > 0 {
      var z := "0" + d;
      assert z[..|z| - 1] == "0" + d[..|d| - 1];
      LeadingZeroIgnored(d[..|d| - 1]);
    }
  }

  /** Decimal digits of `n` with no leading zero. */
  function DecimalString(n: nat): (s: string)
    ensures |s| > 0 && AllDigits(s)
    ensures s[0] != '0' || s == "0"
  {
    var digit := ('0' as int + n % 10) as char;
    if n < 10 then [digit]
    else DecimalString(n / 10) + [digit]
  }

  /** A digit run without leading zeros, as `DecimalString` writes it. */
  predicate Canonical(d: string) {
    |d| > 0 && AllDigits(d) && (d[0] != '0' || d == "0")
  }

  lemma {:induction false} DecimalValueOfString(n: nat)
    ensures DecimalValue(DecimalString(n)) == n
  {
    var s := DecimalString(n);
    if n >= 10 {
      assert s[..|s| - 1] == DecimalString(n / 10);
      DecimalValueOfString(n / 10);
    }
  }

  lemma {:induction false} DecimalValuePositive(d: string)
    requires |d| > 0 && AllDigits(d) && d[0] != '0'
    ensures DecimalValue(d) > 0
  {
    if |d| > 1 {
      DecimalValuePositive(d[..|d| - 1]);
    }
  }

  lemma {:induction false} DecimalStringOfValue(d: string)
    requires Canonical(d)
    ensures DecimalString(DecimalValue(d)) == d
  {
    var init := d[..|d| - 1];
    var v := DecimalValue(d);
    if |d| > 1 {
      DecimalValuePositive(init);
      assert v / 10 == DecimalValue(init);
      assert Canonical(init);
      DecimalStringOfValue(init);
      assert d == init + [d[|d| - 1]];
    }
  }

  /** ASCII lower-casing, the only case mapping the model knows. */
  function LowerChar(c: char): char {
    if 'A' <= c <= 'Z' then (c as int + 32) as char else c
  }

  function Lower(s: string): string {
    seq(|s|, i requires 0 <= i < |s| => LowerChar(s[i]))
  }

  /** One run as the key holds it: `int(t) if t.isdigit() else t.lower()`. */
  datatype Token = Text(text: string) | Num(value: nat)

  function ToToken(run: string): Token {
    if |run| > 0 && AllDigits(run) then Num(DecimalValue(run)) else Text(Lower(run))
  }

  function Tokens(parts: seq<string>): seq<Token> {
    seq(|parts|, i requires 0 <= i < |parts| => ToToken(parts[i]))
  }

  /** The key of a bare file name. */
  function NameKey(name: string): seq<Token> {
    Tokens(Split(name))
  }

  /** The sort key of a path: the key of its last component. */
  function Key(path: string): seq<Token> {
    NameKey(Basename(path))
  }

  // ---------------------------------------------------------------------
  // Properties of the key
  // ---------------------------------------------------------------------

  /** Joining the runs of the last component (digit runs as written, text
      runs before lower-casing) gives back the last component exactly. */
  lemma {:induction false} SplitRoundTrip(path: string)
    ensures Concat(Split(Basename(path))) == Basename(path)
  {
    SplitIsRunSplit(Basename(path));
  }

  /** Keys alternate: an odd number of tokens, integers exactly at odd
      positions, each integer the value of its digit run and each text the
      lower-cased text run. */
  lemma {:induction false} KeyShape(path: string)
    ensures |Key(path)| % 2 == 1
    ensures forall i :: 0 <= i < |Key(path)| ==> (Key(path)[i].Num? <==> i % 2 == 1)
    ensures |Key(path)| == |Split(Basename(path))|
    ensures forall i :: 0 <= i < |Key(path)| && i % 2 == 1 ==>
              AllDigits(Split(Basename(path))[i])
              && Key(path)[i] == Num(DecimalValue(Split(Basename(path))[i]))
    ensures forall i :: 0 <= i < |Key(path)| && i % 2 == 0 ==>
              Key(path)[i] == Text(Lower(Split(Basename(path))[i]))
  {
    var parts := Split(Basename(path));
    SplitIsRunSplit(Basename(path));
    TokensShape(parts);
  }

  /** Tokens of runs in the reference shape: integers exactly at odd positions. */
  lemma {:induction false} TokensShape(parts: seq<string>)
    requires TextRunsHaveNoDigit(parts) && DigitRunsAreNumbers(parts)
    ensures |Tokens(parts)| == |parts|
    ensures forall i :: 0 <= i < |parts| ==> (Tokens(parts)[i].Num? <==> i % 2 == 1)
    ensures forall i :: 0 <= i < |parts| && i % 2 == 1 ==>
              AllDigits(parts[i]) && Tokens(parts)[i] == Num(DecimalValue(parts[i]))
    ensures forall i :: 0 <= i < |parts| && i % 2 == 0 ==>
              Tokens(parts)[i] == Text(Lower(parts[i]))
  {
    var key := Tokens(parts);
    forall i | 0 <= i < |parts|
      ensures key[i].Num? <==> i % 2 == 1
      ensures i % 2 == 1 ==> AllDigits(parts[i]) && key[i] == Num(DecimalValue(parts[i]))
      ensures i % 2 == 0 ==> key[i] == Text(Lower(parts[i]))
    {
      if i % 2 == 0 {
        TextIsNotNumber(parts[i]);
      }
    }
  }

  /** Rendering a key: text as is, integers in decimal without leading zeros. */
  function TokenText(t: Token): string {
    match t
    case Text(s) => s
    case Num(n) => DecimalString(n)
  }

  function Render(key: seq<Token>): string {
    if |key| == 0 then "" else TokenText(key[0]) + Render(key[1..])
  }

  lemma {:induction false} LowerAppend(a: string, b: string)
    ensures Lower(a + b) == Lower(a) + Lower(b)
  {
  }

  lemma {:induction false} RenderTokens(parts: seq<string>)
    requires forall i :: 0 <= i < |parts| && |parts[i]| > 0 && AllDigits(parts[i]) ==> Canonical(parts[i])
    ensures Render(Tokens(parts)) == Lower(Concat(parts))
  {
    if |parts| > 0 {
      var p := parts[0];
      assert Tokens(parts)[1..] == Tokens(parts[1..]);
      RenderTokens(parts[1..]);
      LowerAppend(p, Concat(parts[1..]));
      if |p| > 0 && AllDigits(p) {
        DecimalStringOfValue(p);
        assert Lower(p) == p;
      }
    }
  }

  /** Decoding the key back to text: when no digit run carries a leading
      zero, rendering the key gives the lower-cased last component. */
  lemma {:induction false} KeyRoundTrip(path: string)
    requires forall i :: 0 <= i < |Split(Basename(path))| && i % 2 == 1 ==> Canonical(Split(Basename(path))[i])
    ensures Render(Key(path)) == Lower(Basename(path))
  {
    var parts := Split(Basename(path));
    SplitIsRunSplit(Basename(path));
    forall i | 0 <= i < |parts| && |parts[i]| > 0 && AllDigits(parts[i])
      ensures Canonical(parts[i])
    {
      if i % 2 == 0 {
        TextIsNotNumber(parts[i]);
        assert false;
      }
    }
    RenderTokens(parts);
  }

  /** The key of a name made of a text run, a digit run and a remainder that
      does not start with a digit. */
  lemma {:induction false} NameKeyRuns(t: string, d: string, r: string)
    requires NoDigit(t) && |d| > 0 && AllDigits(d)
    requires |r| == 0 || !IsDigit(r[0])
    ensures NameKey(t + d + r) == [Text(Lower(t)), Num(DecimalValue(d))] + NameKey(r)
  {
    SplitRuns(t, d, r);
    TextIsNotNumber(t);
    TokensRuns(t, d, Split(r));
  }

  lemma {:induction false} TokensRuns(t: string, d: string, q: seq<string>)
    ensures Tokens([t, d] + q) == [ToToken(t), ToToken(d)] + Tokens(q)
  {
    var p := [t, d] + q;
    var key := [ToToken(t), ToToken(d)] + Tokens(q);
    forall i | 0 <= i < |p|
      ensures Tokens(p)[i] == key[i]
    {
      if i >= 2 {
        assert p[i] == q[i - 2];
      }
    }
  }

  /** Digit runs of equal value, such as "007" and "7", give equal keys. */
  lemma {:induction false} EqualValuesEqualKeys(t: string, d1: string, d2: string, r: string)
    requires NoDigit(t) && |d1| > 0 && AllDigits(d1) && |d2| > 0 && AllDigits(d2)
    requires |r| == 0 || !IsDigit(r[0])
    requires DecimalValue(d1) == DecimalValue(d2)
    ensures NameKey(t + d1 + r) == NameKey(t + d2 + r)
  {
    NameKeyRuns(t, d1, r);
    NameKeyRuns(t, d2, r);
  }

  /** The directory part of a path never affects its key. */
  lemma {:induction false} KeyIgnoresDirectory(dir: string, path: string)
    ensures Key(dir + [Separator] + path) == Key(path)
  {
    BasenameUnderDirectory(dir, path);
  }

  // Case insensitivity

  lemma {:induction false} LowerKeepsKinds(s: string)
    ensures |Lower(s)| == |s|
    ensures NoDigit(s) ==> NoDigit(Lower(s))
    ensures AllDigits(Lower(s)) <==> AllDigits(s)
    ensures AllDigits(s) ==> Lower(s) == s
    ensures Lower(Lower(s)) == Lower(s)
  {
    forall i | 0 <= i < |s|
      ensures IsDigit(LowerChar(s[i])) <==> IsDigit(s[i])
    {
      if 'A' <= s[i] <= 'Z' {
        assert 'a' <= LowerChar(s[i]) <= 'z';
      }
    }
    if AllDigits(Lower(s)) {
      forall i | 0 <= i < |s|
        ensures IsDigit(s[i])
      {
        assert IsDigit(Lower(s)[i]);
      }
    }
  }

  function LowerAll(parts: seq<string>): seq<string> {
    seq(|parts|, i requires 0 <= i < |parts| => Lower(parts[i]))
  }

  lemma {:induction false} ConcatLowerAll(parts: seq<string>)
    ensures Concat(LowerAll(parts)) == Lower(Concat(parts))
  {
    if |parts| > 0 {
      assert LowerAll(parts)[1..] == LowerAll(parts[1..]);
      ConcatLowerAll(parts[1..]);
      LowerAppend(parts[0], Concat(parts[1..]));
    }
  }

  lemma {:induction false} SplitLower(name: string)
    ensures Split(Lower(name)) == LowerAll(Split(name))
  {
    var parts := Split(name);
    var low := LowerAll(parts);
    SplitIsRunSplit(name);
    ConcatLowerAll(parts);
    forall i | 0 <= i < |parts|
      ensures |low[i]| == |parts[i]|
      ensures NoDigit(parts[i]) ==> NoDigit(low[i])
      ensures AllDigits(parts[i]) ==> AllDigits(low[i])
    {
      LowerKeepsKinds(parts[i]);
    }
    RunSplitUnique(Lower(name), low);
  }

  lemma {:induction false} BasenameLower(path: string)
    ensures Basename(Lower(path)) == Lower(Basename(path))
  {
    var b := Basename(path);
    var lp := Lower(path);
    BasenameIsBasename(path);
    assert lp[|lp| - |b|..] == Lower(b);
    if |b| < |path| {
      assert lp[|lp| - |b| - 1] == Separator;
    }
    BasenameUnique(lp, Lower(b));
  }

  /** Paths that differ only in ASCII letter case have equal keys. */
  lemma {:induction false} KeyIgnoresCase(p: string, q: string)
    requires Lower(p) == Lower(q)
    ensures Key(p) == Key(q)
  {
    KeyOfLower(p);
    KeyOfLower(q);
  }

  lemma {:induction false} KeyOfLower(p: string)
    ensures Key(Lower(p)) == Key(p)
  {
    var b := Basename(p);
    BasenameLower(p);
    SplitLower(b);
    var parts := Split(b);
    forall i | 0 <= i < |parts|
      ensures ToToken(Lower(parts[i])) == ToToken(parts[i])
    {
      LowerKeepsKinds(parts[i]);
    }
  }
}
