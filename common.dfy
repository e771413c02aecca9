/** Helpers shared by the puzzle modules: failure-compatible wrappers, decimal digits,
    and models of the Rust string utilities the solvers lean on (`str::lines`, `trim`,
    `split_whitespace`).  Input text is a `string` whose characters stand for bytes. */
module Common {

  datatype Option<T> = None | Some(value: T)

  datatype Result<T, E> = Ok(value: T) | Err(error: E) {
    predicate IsFailure() { Err? }
    function PropagateFailure<U>(): Result<U, E>
      requires Err?
    {
      Err(error)
    }
    function Extract(): T
      requires Ok?
    {
      value
    }
  }

  // ---------------------------------------------------------------------------
  // Decimal digits
  // ---------------------------------------------------------------------------

  predicate IsDigit(c: char) { '0' <= c <= '9' }

  function DigitValue(c: char): (d: nat)
    requires IsDigit(c)
    ensures d < 10
  {
    c as int - '0' as int
  }

  predicate AllDigits(s: string) { forall i :: 0 <= i < |s| ==> IsDigit(s[i]) }

  /** The value of a string of decimal digits, most significant first.  It is defined
      from the last digit so that a left-to-right accumulation `v := v * 10 + d`
      follows it one character at a time. */
  function DecimalValue(s: string): nat
    requires AllDigits(s)
  {
    if s == [] then 0 else DecimalValue(s[..|s| - 1]) * 10 + DigitValue(s[|s| - 1])
  }

  function Pow10(k: nat): (r: nat)
    ensures r >= 1
  {
    if k == 0 then 1 else 10 * Pow10(k - 1)
  }

  function Pow2(k: nat): (r: nat)
    ensures r >= 1
  {
    if k == 0 then 1 else 2 * Pow2(k - 1)
  }

  lemma {:induction false} Pow10Add(a: nat, b: nat)
    ensures Pow10(a + b) == Pow10(a) * Pow10(b)
  {
    if b > 0 {
      Pow10Add(a, b - 1);
      assert Pow10(a + b) == 10 * Pow10(a + b - 1);
    }
  }

  lemma {:induction false} Pow10Monotone(a: nat, b: nat)
    requires a <= b
    ensures Pow10(a) <= Pow10(b)
  {
    if a < b { Pow10Monotone(a, b - 1); }
  }

  lemma {:induction false} DecimalValueBound(s: string)
    requires AllDigits(s)
    ensures DecimalValue(s) < Pow10(|s|)
  {
    if s != [] {
      DecimalValueBound(s[..|s| - 1]);
    }
  }

  function DigitChar(d: nat): (c: char)
    requires d < 10
    ensures IsDigit(c) && DigitValue(c) == d
  {
    ('0' as int + d) as char
  }

  /** The canonical decimal form of `n`: at least one digit, no leading zero. */
  function Decimal(n: nat): (s: string)
    ensures |s| >= 1 && AllDigits(s)
    ensures |s| > 1 ==> s[0] != '0'
  {
    if n < 10 then [DigitChar(n)] else Decimal(n / 10) + [DigitChar(n % 10)]
  }

  /** A canonical string: digits only, and no leading zero unless it is "0". */
  predicate Canonical(s: string)
  {
    |s| >= 1 && AllDigits(s) && (|s| > 1 ==> s[0] != '0')
  }

  lemma {:induction false} DecimalValueOfDecimal(n: nat)
    ensures DecimalValue(Decimal(n)) == n
  {
    if n >= 10 {
      var s := Decimal(n);
      DecimalValueOfDecimal(n / 10);
      assert s[..|s| - 1] == Decimal(n / 10);
    }
  }

  /** Reading digits back and printing them gives the same canonical string. */
  lemma {:induction false} DecimalOfDecimalValue(s: string)
    requires Canonical(s)
    ensures Decimal(DecimalValue(s)) == s
    decreases |s|
  {
    var v := DecimalValue(s);
    if |s| == 1 {
      assert s[..|s| - 1] == [];
      assert v == DecimalValue([]) * 10 + DigitValue(s[0]);
      assert Decimal(v) == [DigitChar(v)];
    } else {
      var p := s[..|s| - 1];
      assert Canonical(p) by { assert p[0] == s[0]; }
      DecimalOfDecimalValue(p);
      var last := DigitValue(s[|s| - 1]);
      assert v == DecimalValue(p) * 10 + last;
      if |p| > 1 {
        assert DecimalValue(p) >= 1 by { LeadingDigitPositive(p); }
      } else {
        assert DecimalValue(p) == DigitValue(p[0]) && p[0] != '0';
      }
      DivModUnique(v, 10, DecimalValue(p), last);
      assert DigitChar(last) == s[|s| - 1];
    }
  }

  lemma {:induction false} LeadingDigitPositive(s: string)
    requires AllDigits(s) && |s| >= 1 && s[0] != '0'
    ensures DecimalValue(s) >= 1
    decreases |s|
  {
    if |s| > 1 {
      LeadingDigitPositive(s[..|s| - 1]);
    }
  }

  lemma ShiftDigit(x: int, p: int, v: int, last: int)
    ensures (x * p + v) * 10 + last == x * (10 * p) + (v * 10 + last)
  {
  }

  /** The value of a concatenation of digit strings. */
  lemma {:induction false} DecimalValueAppend(a: string, b: string)
    requires AllDigits(a) && AllDigits(b)
    ensures AllDigits(a + b)
    ensures DecimalValue(a + b) == DecimalValue(a) * Pow10(|b|) + DecimalValue(b)
    decreases |b|
  {
    if b == [] {
      assert a + b == a;
    } else {
      var b' := b[..|b| - 1];
      assert (a + b)[..|a + b| - 1] == a + b';
      DecimalValueAppend(a, b');
      var last := DigitValue(b[|b| - 1]);
      assert (a + b)[|a + b| - 1] == b[|b| - 1];
      assert DecimalValue(a + b) == DecimalValue(a + b') * 10 + last;
      assert DecimalValue(b) == DecimalValue(b') * 10 + last;
      ShiftDigit(DecimalValue(a), Pow10(|b'|), DecimalValue(b'), last);
    }
  }

  /** A canonical decimal of `k` digits lies in `[10^(k-1), 10^k)` (or is 0 for one
      digit). */
  lemma {:induction false} DecimalLength(n: nat)
    ensures n < Pow10(|Decimal(n)|)
    ensures n >= 10 ==> Pow10(|Decimal(n)| - 1) <= n
  {
    if n >= 10 {
      DecimalLength(n / 10);
    }
  }

  /** The number of digits is the `k` with `10^(k-1) <= n < 10^k`. */
  lemma {:induction false} DecimalLengthUnique(n: nat, k: nat)
    requires k >= 1 && n < Pow10(k) && (k == 1 || Pow10(k - 1) <= n)
    ensures |Decimal(n)| == k
  {
    DecimalLength(n);
    var d := |Decimal(n)|;
    if d < k {
      Pow10Monotone(d, k - 1);
      if k == 1 { assert false; }
    } else if d > k {
      Pow10Monotone(k, d - 1);
      if d - 1 == 0 { assert false; }
      if n < 10 { assert false; }
    }
  }

  /** Euclidean division is unique: this is what lets a proof move a multiple of `m`
      in and out of `% m`. */
  lemma DivModUnique(a: int, m: int, q: int, r: int)
    requires m > 0 && a == m * q + r && 0 <= r < m
    ensures a / m == q && a % m == r
  {
    var q', r' := a / m, a % m;
    assert a == m * q' + r';
    if q > q' {
      MulGap(m, q', q);
    } else if q < q' {
      MulGap(m, q, q');
    }
  }

  /** Multiples of `m` with different factors lie at least `m` apart. */
  lemma {:induction false} MulGap(m: int, x: int, y: int)
    requires m > 0 && x < y
    ensures m * x + m <= m * y
    decreases y - x
  {
    if x + 1 < y {
      MulGap(m, x, y - 1);
      assert m * y == m * (y - 1) + m;
    } else {
      assert m * y == m * x + m;
    }
  }

  lemma MulAdd(g: int, a: int, b: int)
    ensures g * (a + b) == g * a + g * b
  {
  }

  lemma MulAssoc(a: int, b: int, c: int)
    ensures (a * b) * c == a * (b * c)
  {
  }

  /** The product of two natural numbers is a natural number. */
  lemma NatMul(a: int, b: int)
    requires a >= 0 && b >= 0
    ensures a * b >= 0
  {
  }

  /** Dividing a natural number by a positive one gives a natural number. */
  lemma NatDiv(a: int, b: int)
    requires a >= 0 && b >= 1
    ensures a / b >= 0
  {
  }

  lemma ModAddMultiple(x: int, k: int, m: int)
    requires m > 0
    ensures (x + m * k) % m == x % m
  {
    DivModUnique(x + m * k, m, x / m + k, x % m);
  }

  const U64_LIMIT: nat := 0x1_0000_0000_0000_0000

  /** The position of the first non-digit of `line` from `i` on, or `|line|`. */
  function FirstNonDigit(line: string, i: nat): (k: nat)
    requires i <= |line|
    ensures i <= k <= |line|
    ensures forall j :: i <= j < k ==> IsDigit(line[j])
    ensures k < |line| ==> !IsDigit(line[k])
    decreases |line| - i
  {
    if i == |line| || !IsDigit(line[i]) then i else FirstNonDigit(line, i + 1)
  }

  /** A digit prefix grows by one digit. */
  lemma AllDigitsSnoc(s: string, k: nat)
    requires k < |s| && AllDigits(s[..k]) && IsDigit(s[k])
    ensures AllDigits(s[..k + 1])
  {
    assert s[..k + 1] == s[..k] + [s[k]];
  }

  /** Where the first non-digit is, told by the digits before it. */
  lemma {:induction false} FirstNonDigitAt(line: string, i: nat, k: nat)
    requires i <= k <= |line| && AllDigits(line[..k]) && (k == |line| || !IsDigit(line[k]))
    ensures FirstNonDigit(line, i) == k
    decreases k - i
  {
    if i < k {
      assert line[..k][i] == line[i];
      FirstNonDigitAt(line, i + 1, k);
    }
  }

  // ---------------------------------------------------------------------------
  // Text: Rust's `str::lines`, ASCII whitespace trimming and splitting
  // ---------------------------------------------------------------------------

  /** Index of the first occurrence of `c` in `s` at or after `i`, or `|s|` if none. */
  function IndexOf(s: string, c: char, i: nat): (k: nat)
    requires i <= |s|
    ensures i <= k <= |s|
    ensures k < |s| ==> s[k] == c
    ensures forall j :: i <= j < k ==> s[j] != c
    decreases |s| - i
  {
    if i == |s| || s[i] == c then i else IndexOf(s, c, i + 1)
  }

  /** The index at which `c` is next found from `i` on, seen from the search's side. */
  lemma {:induction false} IndexOfAt(s: string, c: char, i: nat, k: nat)
    requires i <= k <= |s|
    requires forall j :: i <= j < k ==> s[j] != c
    requires k == |s| || s[k] == c
    ensures IndexOf(s, c, i) == k
    decreases k - i
  {
    if i < k { IndexOfAt(s, c, i + 1, k); }
  }

  /** `t` occurs in `s` starting at index `i`. */
  predicate At(s: string, i: nat, t: string)
  {
    i + |t| <= |s| && forall q :: 0 <= q < |t| ==> s[i + q] == t[q]
  }

  lemma AtConcat(s: string, i: nat, x: string, y: string)
    requires At(s, i, x + y)
    ensures At(s, i, x) && At(s, i + |x|, y)
  {
    forall q | 0 <= q < |x| ensures s[i + q] == x[q] {
      assert (x + y)[q] == x[q];
    }
    forall q | 0 <= q < |y| ensures s[i + |x| + q] == y[q] {
      assert s[i + (|x| + q)] == (x + y)[|x| + q];
    }
  }

  /** Drops one trailing carriage return, as `lines()` does for a `\r\n` ending. */
  function StripCR(line: string): string
  {
    if |line| > 0 && line[|line| - 1] == '\r' then line[..|line| - 1] else line
  }

  /** `str::lines`: split on `\n`, strip a `\r` that precedes the `\n`; a final line
      ending is optional and produces no extra empty line. */
  function Lines(s: string): (ls: seq<string>)
    ensures s == [] <==> ls == []
    ensures forall k :: 0 <= k < |ls| ==> '\n' !in ls[k]
    decreases |s|
  {
    if s == [] then []
    else
      var k := IndexOf(s, '\n', 0);
      if k == |s| then [s]
      else [StripCR(s[..k])] + Lines(s[k + 1..])
  }

  /** The whitespace characters that Rust's `trim` and `split_whitespace` accept, within
      the ASCII range. */
  predicate IsSpace(c: char) {
    c == ' ' || c == '\t' || c == '\n' || c == '\r' || c as int == 11 || c as int == 12
  }

  function TrimStart(s: string): (t: string)
    ensures |t| <= |s| && t == s[|s| - |t|..]
    ensures t == [] || !IsSpace(t[0])
    ensures forall i :: 0 <= i < |s| - |t| ==> IsSpace(s[i])
  {
    if s != [] && IsSpace(s[0]) then TrimStart(s[1..]) else s
  }

  function TrimEnd(s: string): (t: string)
    ensures |t| <= |s| && t == s[..|t|]
    ensures t == [] || !IsSpace(t[|t| - 1])
    ensures forall i :: |t| <= i < |s| ==> IsSpace(s[i])
  {
    if s != [] && IsSpace(s[|s| - 1]) then TrimEnd(s[..|s| - 1]) else s
  }

  function Trim(s: string): string { TrimEnd(TrimStart(s)) }

  /** `split_whitespace`: the maximal runs of non-whitespace characters, in order. */
  function Words(s: string): (ws: seq<string>)
    ensures forall w :: w in ws ==> IsWord(w)
    decreases |s|
  {
    var t := TrimStart(s);
    if t == [] then []
    else
      var k := WordEnd(t, 0);
      var w := t[..k];
      assert IsWord(w);
      [w] + Words(t[k..])
  }

  /** A non-empty run of non-whitespace characters. */
  predicate IsWord(w: string)
  {
    w != [] && forall i :: 0 <= i < |w| ==> !IsSpace(w[i])
  }

  function WordEnd(s: string, i: nat): (k: nat)
    requires i <= |s|
    ensures i <= k <= |s|
    ensures k < |s| ==> IsSpace(s[k])
    ensures forall j :: i <= j < k ==> !IsSpace(s[j])
    decreases |s| - i
  {
    if i == |s| || IsSpace(s[i]) then i else WordEnd(s, i + 1)
  }

  /** `s.split(sep)`: the pieces between separators, always at least one. */
  function Split(s: string, sep: char): (ps: seq<string>)
    ensures |ps| >= 1
    ensures forall k :: 0 <= k < |ps| ==> sep !in ps[k]
    decreases |s|
  {
    var k := IndexOf(s, sep, 0);
    if k == |s| then [s] else [s[..k]] + Split(s[k + 1..], sep)
  }

  // ---------------------------------------------------------------------------
  // Sequences
  // ---------------------------------------------------------------------------

  lemma AppendAssoc<T>(a: seq<T>, b: seq<T>, c: seq<T>)
    ensures (a + b) + c == a + (b + c)
  {
  }

  lemma ConsAppend<T>(x: T, a: seq<T>, b: seq<T>)
    ensures [x] + (a + b) == ([x] + a) + b
  {
  }

  lemma TakeSnoc<T>(s: seq<T>, n: nat)
    requires n < |s|
    ensures s[..n + 1] == s[..n] + [s[n]]
  {
  }

  lemma SplitJoin<T>(s: seq<T>, i: nat)
    requires i <= |s|
    ensures s[..i] + s[i..] == s
  {
  }

  // ---------------------------------------------------------------------------
  // Sums
  // ---------------------------------------------------------------------------

  function Sum(s: seq<int>): int
  {
    if s == [] then 0 else Sum(s[..|s| - 1]) + s[|s| - 1]
  }

  function Product(s: seq<int>): int
  {
    if s == [] then 1 else Product(s[..|s| - 1]) * s[|s| - 1]
  }
}
