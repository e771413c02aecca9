/** Day 10: each machine has a row of indicator lights, buttons that toggle sets of
    the lights, and a joltage requirement per light.  Part 1 is the fewest button
    presses that turn the lights into the pattern in `[...]`; part 2 the fewest presses
    that raise each counter to its joltage when a press adds one to every counter the
    button is wired to.  This module holds the machine description and its reader. */
module Day10 {
  import opened Common
  import opened Sorting
  import opened Day08

  // ===========================================================================
  // Machines
  // ===========================================================================

  /** A `u16` bit set, given by the indices of its set bits: lights, or the lights one
      button toggles.  `|` is union, `&` intersection, `^` symmetric difference and
      `count_ones` the number of elements. */
  type Mask = set<nat>

  /** Only bits 0 to 15 can be set. */
  predicate Small(m: Mask)
  {
    forall k :: k in m ==> k < 16
  }

  /** A value of Rust's `u16`. */
  type U16 = x: nat | x < 0x1_0000

  datatype Machine = Machine(target: Mask, buttons: seq<Mask>, joltages: seq<U16>, n: nat)

  /** `1u16 << k` in a release build, where the shift amount is taken modulo 16. */
  function Bit(k: nat): (m: Mask)
    ensures Small(m)
  {
    {k % 16}
  }

  /** The `u16` value of a mask: bit `k` weighs 2^k. */
  function MaskValue(m: Mask): nat
  {
    ValueBelow(m, 16)
  }

  /** The weight of the bits of `m` below `k`. */
  function ValueBelow(m: Mask, k: nat): (v: nat)
    ensures v < Pow2(k)
  {
    if k == 0 then 0 else ValueBelow(m, k - 1) + (if k - 1 in m then Pow2(k - 1) else 0)
  }

  /** Masks with the same bits below `k` have the same value below `k`, and only those:
      the value of a mask tells its bits. */
  lemma {:induction false} ValueBelowInjective(a: Mask, b: Mask, k: nat)
    ensures ValueBelow(a, k) == ValueBelow(b, k) <==> forall j :: 0 <= j < k ==> (j in a <==> j in b)
  {
    if k > 0 {
      ValueBelowInjective(a, b, k - 1);
    }
  }

  lemma MaskValueInjective(a: Mask, b: Mask)
    requires Small(a) && Small(b)
    ensures MaskValue(a) == MaskValue(b) <==> a == b
  {
    ValueBelowInjective(a, b, 16);
    if MaskValue(a) == MaskValue(b) {
      assert forall j :: j in a <==> j in b;
    }
  }

  /** The sort key of `sort_unstable` on masks. */
  function MaskKey(m: Mask): int
  {
    MaskValue(m)
  }

  /** Masks in increasing order of value, none repeated: what `sort_unstable` and
      `dedup` leave. */
  predicate Increasing(s: seq<Mask>)
  {
    forall i, j :: 0 <= i < j < |s| ==> MaskValue(s[i]) < MaskValue(s[j])
  }

  predicate AllSmall(s: seq<Mask>)
  {
    forall i :: 0 <= i < |s| ==> Small(s[i])
  }

  /** `sort_unstable` followed by `dedup` on the button masks. */
  function SortedMasks(raw: seq<Mask>): seq<Mask>
  {
    DedupMasks(SortBy(raw, MaskKey))
  }

  /** The buttons come out in increasing order, each once, and they are the same buttons. */
  lemma SortedMasksMeaning(raw: seq<Mask>)
    requires AllSmall(raw)
    ensures Increasing(SortedMasks(raw)) && AllSmall(SortedMasks(raw))
    ensures forall m :: m in SortedMasks(raw) <==> m in raw
  {
    var sorted := SortBy(raw, MaskKey);
    assert forall m :: m in sorted <==> m in multiset(raw);
    DedupMeaning(sorted);
  }

  /** `dedup`: drops each mask equal to its predecessor. */
  function DedupMasks(s: seq<Mask>): seq<Mask>
  {
    if |s| <= 1 then s
    else if s[0] == s[1] then DedupMasks(s[1..])
    else [s[0]] + DedupMasks(s[1..])
  }

  lemma {:induction false} DedupMeaning(s: seq<Mask>)
    requires SortedBy(s, MaskKey) && forall m :: m in s ==> Small(m)
    ensures Increasing(DedupMasks(s)) && AllSmall(DedupMasks(s))
    ensures forall m :: m in DedupMasks(s) <==> m in s
    ensures s != [] ==> DedupMasks(s) != [] && DedupMasks(s)[0] == s[0]
  {
    if |s| > 1 {
      DedupMeaning(s[1..]);
      assert MaskKey(s[0]) <= MaskKey(s[1]);
      if s[0] != s[1] {
        MaskValueInjective(s[0], s[1]);
      }
    }
  }

  // ===========================================================================
  // Reading machines
  // ===========================================================================

  /** A value read from the text and the index where reading stopped. */
  datatype Read<T> = Read(value: T, next: nat)

  /** The lights between index `i` and `k`: light `j - i` is on when `s[j]` is '#'. */
  function LightsMask(s: string, i: nat, k: nat): (m: Mask)
    requires i <= k <= |s|
    ensures Small(m)
    decreases k - i
  {
    if k == i then {}
    else LightsMask(s, i, k - 1) + (if s[k - 1] == '#' then Bit(k - 1 - i) else {})
  }

  /** Light `j` is on exactly when some '#' stands `j` places after `i`, counting modulo
      16, because `1 << n` on a `u16` takes the shift amount modulo 16. */
  lemma {:induction false} LightsMaskMeaning(s: string, i: nat, k: nat)
    requires i <= k <= |s|
    ensures forall j :: j in LightsMask(s, i, k) <==> exists p :: i <= p < k && s[p] == '#' && (p - i) % 16 == j
    decreases k - i
  {
    if k > i {
      LightsMaskMeaning(s, i, k - 1);
      forall j
        ensures j in LightsMask(s, i, k) <==> exists p :: i <= p < k && s[p] == '#' && (p - i) % 16 == j
      {
        if j in LightsMask(s, i, k) && j !in LightsMask(s, i, k - 1) {
          assert s[k - 1] == '#' && (k - 1 - i) % 16 == j;
        }
      }
    }
  }

  /** With at most 16 lights, light `j` is on exactly when the `j`-th character is '#'. */
  lemma LightsMaskBits(s: string, i: nat, k: nat)
    requires i <= k <= |s| && k - i <= 16
    ensures forall j: nat :: j in LightsMask(s, i, k) <==> j < k - i && s[i + j] == '#'
  {
    LightsMaskMeaning(s, i, k);
    forall j: nat | j in LightsMask(s, i, k)
      ensures j < k - i && s[i + j] == '#'
    {
      var p :| i <= p < k && s[p] == '#' && (p - i) % 16 == j;
      assert p - i < 16;
    }
    forall j: nat | j < k - i && s[i + j] == '#'
      ensures j in LightsMask(s, i, k)
    {
      assert i <= i + j < k && (i + j - i) % 16 == j;
    }
  }

  /** A number starts at `p` in a scan that starts at `i`: a digit not preceded by a digit
      the scan has read. */
  predicate NumberAt(s: string, i: nat, p: nat)
    requires i <= p < |s|
  {
    IsDigit(s[p]) && (p == i || !IsDigit(s[p - 1]))
  }

  /** `ReadDigits` takes a maximal run of digits. */
  lemma {:induction false} ReadDigitsSpan(s: string, k: nat, val: nat)
    requires k <= |s|
    ensures var r := ReadDigits(s, k, val);
      (forall p :: k <= p < r.next ==> IsDigit(s[p])) && (r.next < |s| ==> !IsDigit(s[r.next]))
    decreases |s| - k
  {
    if k < |s| && IsDigit(s[k]) {
      ReadDigitsSpan(s, k + 1, val * 10 + DigitValue(s[k]));
    }
  }

  /** A button's mask holds the numbers written inside its parentheses, each modulo 16, and
      nothing else. */
  lemma {:induction false} ButtonMaskMeaning(s: string, i: nat, mask: Mask)
    requires i <= |s|
    ensures var r := ButtonMask(s, i, mask);
      forall j :: j in r.value <==>
        j in mask || exists p :: i <= p < r.next && NumberAt(s, i, p) && ReadDigits(s, p, 0).value % 16 == j
    decreases |s| - i
  {
    var r := ButtonMask(s, i, mask);
    if i == |s| || s[i] == ')' {
    } else if IsDigit(s[i]) {
      var v := ReadDigits(s, i, 0);
      ReadDigitsSpan(s, i, 0);
      ButtonMaskMeaning(s, v.next, mask + Bit(v.value));
      assert r == ButtonMask(s, v.next, mask + Bit(v.value));
      forall p | i < p < r.next
        ensures NumberAt(s, i, p) <==> (v.next <= p && NumberAt(s, v.next, p))
      {
        if p < v.next {
          assert IsDigit(s[p - 1]);
        }
      }
      forall j
        ensures j in r.value <==>
          j in mask || exists p :: i <= p < r.next && NumberAt(s, i, p) && ReadDigits(s, p, 0).value % 16 == j
      {
        if j in r.value && j !in mask {
          if j == v.value % 16 {
            assert NumberAt(s, i, i);
          } else {
            var p :| v.next <= p < r.next && NumberAt(s, v.next, p) && ReadDigits(s, p, 0).value % 16 == j;
            assert NumberAt(s, i, p);
          }
        }
        if exists p :: i <= p < r.next && NumberAt(s, i, p) && ReadDigits(s, p, 0).value % 16 == j {
          var p :| i <= p < r.next && NumberAt(s, i, p) && ReadDigits(s, p, 0).value % 16 == j;
          if p > i {
            assert NumberAt(s, v.next, p);
          }
        }
      }
    } else {
      ButtonMaskMeaning(s, i + 1, mask);
      assert r == ButtonMask(s, i + 1, mask);
      forall j
        ensures j in r.value <==>
          j in mask || exists p :: i <= p < r.next && NumberAt(s, i, p) && ReadDigits(s, p, 0).value % 16 == j
      {
        if j in r.value && j !in mask {
          var p :| i + 1 <= p < r.next && NumberAt(s, i + 1, p) && ReadDigits(s, p, 0).value % 16 == j;
          assert NumberAt(s, i, p);
        }
        if exists p :: i <= p < r.next && NumberAt(s, i, p) && ReadDigits(s, p, 0).value % 16 == j {
          var p :| i <= p < r.next && NumberAt(s, i, p) && ReadDigits(s, p, 0).value % 16 == j;
          assert NumberAt(s, i + 1, p);
        }
      }
    }
  }

  /** Where the search for the next button stops: '(', '{' or a line break. */
  predicate ButtonStop(c: char) { c == '(' || c == '{' || c == '\n' }

  function NextButtonStop(s: string, i: nat): (k: nat)
    requires i <= |s|
    ensures i <= k <= |s|
    ensures k < |s| ==> ButtonStop(s[k])
    decreases |s| - i
  {
    if i == |s| || ButtonStop(s[i]) then i else NextButtonStop(s, i + 1)
  }

  /** A `while i < len && bytes[i] != c` loop; it leaves an index past the end alone. */
  function Skip(s: string, i: nat, c: char): (k: nat)
    ensures i >= |s| ==> k == i
    ensures i < |s| ==> i <= k <= |s| && (k < |s| ==> s[k] == c)
    decreases |s| - i
  {
    if i >= |s| || s[i] == c then i else Skip(s, i + 1, c)
  }

  /** The inside of one button's `(...)` from `i` up to ')' or the end of the text: each
      number sets its light in `mask`; other characters are passed over. */
  function ButtonMask(s: string, i: nat, mask: Mask): (r: Read<Mask>)
    requires i <= |s|
    ensures i <= r.next <= |s| && (r.next < |s| ==> s[r.next] == ')')
    ensures Small(mask) ==> Small(r.value)
    decreases |s| - i
  {
    if i == |s| || s[i] == ')' then Read(mask, i)
    else if IsDigit(s[i]) then
      var v := ReadDigits(s, i, 0);
      ButtonMask(s, v.next, mask + Bit(v.value))
    else ButtonMask(s, i + 1, mask)
  }

  /** The buttons from index `i` on, appended to `acc`; reading stops at the end of the
      text, at a '{' or at a line break, which is where `next` points. */
  function ButtonsFrom(s: string, i: nat, acc: seq<Mask>): (r: Read<seq<Mask>>)
    ensures i >= |s| ==> r.next == i
    ensures i < |s| ==> i <= r.next <= |s|
    ensures AllSmall(acc) ==> AllSmall(r.value)
    decreases |s| - i
  {
    if i >= |s| then Read(acc, i)
    else
      var j := NextButtonStop(s, i);
      if j == |s| || s[j] != '(' then Read(acc, j)
      else
        var m := ButtonMask(s, j + 1, {});
        ButtonsFrom(s, if m.next < |s| then m.next + 1 else m.next,
                    if m.value != {} then acc + [m.value] else acc)
  }

  /** The joltages from `i` up to '}' or the end of the text, each number taken modulo
      2^16 as the `u16` accumulation of a release build leaves it. */
  function JoltagesFrom(s: string, i: nat, acc: seq<U16>): (r: Read<seq<U16>>)
    requires i <= |s|
    ensures i <= r.next <= |s| && (r.next < |s| ==> s[r.next] == '}')
    decreases |s| - i
  {
    if i == |s| || s[i] == '}' then Read(acc, i)
    else if IsDigit(s[i]) then
      var v := ReadDigits(s, i, 0);
      JoltagesFrom(s, v.next, acc + [v.value % 0x1_0000])
    else JoltagesFrom(s, i + 1, acc)
  }

  /** A machine read from the text, its buttons in the order written, and the index
      where the next search starts. */
  datatype Found = Found(machine: Machine, next: nat)

  /** `buttons.sort_unstable(); buttons.dedup();` before the machine is pushed. */
  function Tidy(m: Machine): Machine
  {
    m.(buttons := SortedMasks(m.buttons))
  }

  /** One pass of the machine loop from index `i`: the machine, or `None` when no '['
      is left, or no '{' after the buttons (no ']' leaves none either). */
  function NextMachine(s: string, i: nat): (r: Option<Found>)
    requires i < |s|
    ensures r.Some? ==> i < r.value.next <= |s|
  {
    var open := Skip(s, i, '[');
    if open == |s| then None else MachineAt(s, open, Skip(s, open + 1, ']'))
  }

  /** The rest of the pass once the lights, from `open` to `close`, are read. */
  function MachineAt(s: string, open: nat, close: nat): (r: Option<Found>)
    requires open < close <= |s|
    ensures r.Some? ==> close < r.value.next <= |s|
  {
    var bs := ButtonsFrom(s, close + 1, []);
    var brace := Skip(s, bs.next, '{');
    if brace >= |s| then None
    else
      var js := JoltagesFrom(s, brace + 1, []);
      Some(Found(Machine(LightsMask(s, open + 1, close), bs.value, js.value, close - (open + 1)),
                 js.next))
  }

  /** The machines from index `i` on, appended to `acc`. */
  function MachinesFrom(s: string, i: nat, acc: seq<Machine>): seq<Machine>
    requires i <= |s|
    decreases |s| - i
  {
    if i == |s| then acc
    else
      match NextMachine(s, i)
      case None => acc
      case Some(f) => MachinesFrom(s, f.next, acc + [Tidy(f.machine)])
  }

  /** `parse`, which never fails. */
  function Machines(s: string): seq<Machine>
  {
    MachinesFrom(s, 0, [])
  }

  // ---------------------------------------------------------------------------
  // The reader, loop by loop
  // ---------------------------------------------------------------------------

  /** `parse`. */
  method ParseMachines(s: string) returns (machines: seq<Machine>)
    ensures machines == Machines(s)
  {
    machines := [];
    var i := 0;
    while i < |s|
      invariant i <= |s| && MachinesFrom(s, i, machines) == Machines(s)
      decreases |s| - i
    {
      var found := ReadMachine(s, i);
      if found.None? { break; }
      var m := found.value.machine;
      var buttons := SortedMasks(m.buttons);
      machines, i := machines + [Machine(m.target, buttons, m.joltages, m.n)], found.value.next;
    }
  }

  /** The body of the machine loop. */
  method ReadMachine(s: string, i: nat) returns (r: Option<Found>)
    requires i < |s|
    ensures r == NextMachine(s, i)
  {
    var open := SkipTo(s, i, '[');
    if open >= |s| { return None; }
    var target, n, close := ReadLights(s, open + 1);
    r := ReadRest(s, open, close, target, n);
  }

  /** The buttons and the joltages of the machine whose lights are done. */
  method ReadRest(s: string, open: nat, close: nat, target: Mask, n: nat) returns (r: Option<Found>)
    requires open < close <= |s| && target == LightsMask(s, open + 1, close) && n == close - (open + 1)
    ensures r == MachineAt(s, open, close)
  {
    var raw, after := ReadButtons(s, close + 1);
    var brace := SkipTo(s, after, '{');
    if brace >= |s| {
      r := None;
    } else {
      r := ReadTail(s, brace, target, raw, n);
    }
  }

  /** The joltages after the '{' at `brace`, and the machine they complete. */
  method ReadTail(s: string, brace: nat, target: Mask, buttons: seq<Mask>, n: nat) returns (r: Option<Found>)
    requires brace < |s|
    ensures r == Some(Found(Machine(target, buttons, JoltagesFrom(s, brace + 1, []).value, n),
                            JoltagesFrom(s, brace + 1, []).next))
  {
    var joltages, end := ReadJoltages(s, brace + 1);
    r := Some(Found(Machine(target, buttons, joltages, n), end));
  }

  /** A `while i < len && bytes[i] != c` loop. */
  method SkipTo(s: string, i: nat, c: char) returns (k: nat)
    ensures k == Skip(s, i, c)
  {
    k := i;
    while k < |s| && s[k] != c
      invariant Skip(s, k, c) == Skip(s, i, c)
      decreases |s| - k
    {
      k := k + 1;
    }
  }

  /** The lights up to ']' or the end: the mask, their number and where ']' is. */
  method ReadLights(s: string, i: nat) returns (target: Mask, n: nat, k: nat)
    requires i <= |s|
    ensures k == Skip(s, i, ']') && n == k - i && target == LightsMask(s, i, k)
  {
    target, n, k := {}, 0, i;
    while k < |s| && s[k] != ']'
      invariant i <= k <= |s| && Skip(s, k, ']') == Skip(s, i, ']')
      invariant n == k - i && target == LightsMask(s, i, k)
      decreases |s| - k
    {
      if s[k] == '#' {
        target := target + Bit(n);
      }
      n := n + 1;
      k := k + 1;
    }
  }

  /** The button loop, from `i` (which may be one past the end of the text). */
  method ReadButtons(s: string, i: nat) returns (raw: seq<Mask>, k: nat)
    ensures Read(raw, k) == ButtonsFrom(s, i, [])
  {
    raw, k := [], i;
    while k < |s|
      invariant ButtonsFrom(s, k, raw) == ButtonsFrom(s, i, [])
      decreases |s| - k
    {
      var j := SkipToButton(s, k);
      if j >= |s| || s[j] == '{' || s[j] == '\n' {
        k := j;
        break;
      }
      var mask, close := ReadMask(s, j + 1);
      var next := if close < |s| then close + 1 else close;
      var raw' := if mask != {} then raw + [mask] else raw;
      ButtonStep(s, k, raw, j, Read(mask, close), next, raw');
      raw, k := raw', next;
    }
  }

  /** One pass of the button loop, over the button whose '(' is at `j`. */
  lemma {:induction false} ButtonStep(s: string, k: nat, raw: seq<Mask>, j: nat, m: Read<Mask>, next: nat, raw': seq<Mask>)
    requires k < |s| && j == NextButtonStop(s, k) && j < |s| && s[j] == '('
    requires m == ButtonMask(s, j + 1, {})
    requires next == (if m.next < |s| then m.next + 1 else m.next)
    requires raw' == if m.value != {} then raw + [m.value] else raw
    ensures ButtonsFrom(s, k, raw) == ButtonsFrom(s, next, raw')
  {
    var stop := NextButtonStop(s, k);
    assert stop == j && stop < |s| && s[stop] == '(';
    assert ButtonsFrom(s, k, raw) == ButtonsFrom(s, if m.next < |s| then m.next + 1 else m.next,
                                                  if m.value != {} then raw + [m.value] else raw);
  }

  method SkipToButton(s: string, i: nat) returns (k: nat)
    requires i <= |s|
    ensures k == NextButtonStop(s, i)
  {
    k := i;
    while k < |s| && !ButtonStop(s[k])
      invariant i <= k <= |s| && NextButtonStop(s, k) == NextButtonStop(s, i)
      decreases |s| - k
    {
      k := k + 1;
    }
  }

  /** One button's mask, from just after its '('. */
  method ReadMask(s: string, i: nat) returns (mask: Mask, k: nat)
    requires i <= |s|
    ensures Read(mask, k) == ButtonMask(s, i, {})
  {
    mask, k := {}, i;
    while k < |s| && s[k] != ')'
      invariant i <= k <= |s| && ButtonMask(s, k, mask) == ButtonMask(s, i, {})
      decreases |s| - k
    {
      if IsDigit(s[k]) {
        ghost var num := ReadDigits(s, k, 0);
        var v;
        v, k := ReadNumber(s, k, U64_LIMIT);
        ModOfMultiple(num.value, 16, U64_LIMIT / 16);
        mask := mask + Bit(v);
      } else {
        k := k + 1;
      }
    }
  }

  /** The joltage list, from just after its '{'. */
  method ReadJoltages(s: string, i: nat) returns (joltages: seq<U16>, k: nat)
    requires i <= |s|
    ensures Read(joltages, k) == JoltagesFrom(s, i, [])
  {
    joltages, k := [], i;
    while k < |s| && s[k] != '}'
      invariant i <= k <= |s| && JoltagesFrom(s, k, joltages) == JoltagesFrom(s, i, [])
      decreases |s| - k
    {
      if IsDigit(s[k]) {
        var v;
        v, k := ReadNumber(s, k, 0x1_0000);
        joltages := joltages + [v];
      } else {
        k := k + 1;
      }
    }
  }

  /** A digit loop `v = v * 10 + d` in an unsigned type that wraps at `bound`. */
  method ReadNumber(s: string, i: nat, bound: nat) returns (v: nat, k: nat)
    requires i < |s| && IsDigit(s[i]) && bound > 0
    ensures k == ReadDigits(s, i, 0).next && v == ReadDigits(s, i, 0).value % bound
  {
    v, k := 0, i;
    ghost var exact: nat := 0;
    while k < |s| && IsDigit(s[k])
      invariant i <= k <= |s| && ReadDigits(s, k, exact) == ReadDigits(s, i, 0) && v == exact % bound
      decreases |s| - k
    {
      var d := DigitValue(s[k]);
      WrapStep(exact, d, bound);
      v, exact := (v * 10 + d) % bound, exact * 10 + d;
      k := k + 1;
    }
  }

  /** One more digit, before or after the wrap-around. */
  lemma WrapStep(x: nat, d: nat, m: nat)
    requires m > 0
    ensures ((x % m) * 10 + d) % m == (x * 10 + d) % m
  {
    var q := x / m;
    assert x * 10 + d == ((x % m) * 10 + d) + m * (10 * q);
    ModAddMultiple((x % m) * 10 + d, 10 * q, m);
  }

  /** Reducing modulo a multiple of `m` keeps the remainder modulo `m`. */
  lemma ModOfMultiple(x: nat, m: nat, q: nat)
    requires m > 0 && q > 0
    ensures (x % (m * q)) % m == x % m
  {
    var k := x / (m * q);
    MulAssoc(m, q, k);
    assert x == x % (m * q) + m * (q * k);
    ModAddMultiple(x % (m * q), q * k, m);
  }
}
