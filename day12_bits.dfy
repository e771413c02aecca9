/** Day 12, bitmasks: the board's cells as the bits of a row of 64-bit words, and the
    word-by-word operations the packing search uses on them. */
module Day12Bits {

  // ---------------------------------------------------------------------------
  // 64-bit words
  // ---------------------------------------------------------------------------

  /** Bit `s` of `w`. */
  predicate HasBit(w: bv64, s: bv6)
  {
    (w >> s) & 1 == 1
  }

  /** Bit `r` of `w`, for a bit position held as a number. */
  predicate Has(w: bv64, r: nat)
    requires r < 64
  {
    HasBit(w, r as bv6)
  }

  /** `1u64 << r`. */
  function BitAt(r: nat): bv64
    requires r < 64
  {
    1 << (r as bv6)
  }

  /** `a & b != 0`: the words share a bit. */
  predicate Clash(a: bv64, b: bv64)
  {
    a & b != 0
  }

  /** `a | b`. */
  function Union(a: bv64, b: bv64): bv64
  {
    a | b
  }

  /** `a ^ b`. */
  function Toggle(a: bv64, b: bv64): bv64
  {
    a ^ b
  }

  /** The positions of the set bits of a word. */
  ghost function WordBits(w: bv64): set<nat>
  {
    set r: nat | r < 64 && Has(w, r)
  }

  lemma ShiftRound(r: nat)
    requires r < 64
    ensures (r as bv6) as int == r
  {
  }

  lemma ShiftBack(s: bv6)
    ensures (s as int) as bv6 == s && s as int < 64
  {
  }

  lemma OrHasBit(a: bv64, b: bv64, s: bv6)
    ensures HasBit(a | b, s) <==> HasBit(a, s) || HasBit(b, s)
  {
  }

  lemma AndHasBit(a: bv64, b: bv64, s: bv6)
    ensures HasBit(a & b, s) <==> HasBit(a, s) && HasBit(b, s)
  {
  }

  lemma OneHasBit(a: bv6, b: bv6)
    ensures HasBit(1 << a, b) <==> a == b
  {
  }

  lemma ZeroHasNoBit(s: bv6)
    ensures !HasBit(0, s)
  {
  }

  /** A clear bit at position `s` and above it only clear bits' worth of shifting left. */
  lemma NextBit(x: bv64, s: bv6)
    requires x >> s != 0 && (x >> s) & 1 == 0
    ensures s < 63 && x >> (s + 1) != 0
  {
  }

  /** The lowest set bit of `x` at or above `s`. */
  function LowBit(x: bv64, s: bv6): (t: bv6)
    requires x >> s != 0
    ensures HasBit(x, t)
    decreases 63 - s as int
  {
    if (x >> s) & 1 == 1 then s
    else
      NextBit(x, s);
      LowBit(x, s + 1)
  }

  lemma SetBitHas(w: bv64, j: nat, k: nat)
    requires j < 64 && k < 64
    ensures Has(Union(w, BitAt(j)), k) <==> Has(w, k) || k == j
  {
    OrHasBit(w, BitAt(j), k as bv6);
    OneHasBit(j as bv6, k as bv6);
    ShiftRound(j);
    ShiftRound(k);
  }

  lemma OrHas(a: bv64, b: bv64, k: nat)
    requires k < 64
    ensures Has(Union(a, b), k) <==> Has(a, k) || Has(b, k)
  {
    OrHasBit(a, b, k as bv6);
  }

  lemma AndHas(a: bv64, b: bv64, k: nat)
    requires k < 64
    ensures Has(a & b, k) <==> Has(a, k) && Has(b, k)
  {
    AndHasBit(a, b, k as bv6);
  }

  lemma ZeroHas(k: nat)
    requires k < 64
    ensures !Has(0, k)
  {
    ZeroHasNoBit(k as bv6);
  }

  /** A set bit of a non-zero word. */
  lemma LowPosition(x: bv64) returns (k: nat)
    requires x != 0
    ensures k < 64 && Has(x, k)
  {
    var s := LowBit(x, 0);
    ShiftBack(s);
    k := s as int;
  }

  lemma WordSetBit(w: bv64, j: nat)
    requires j < 64
    ensures WordBits(Union(w, BitAt(j))) == WordBits(w) + {j}
  {
    forall k: nat | k < 64 ensures Has(Union(w, BitAt(j)), k) <==> Has(w, k) || k == j {
      SetBitHas(w, j, k);
    }
  }

  lemma WordOr(a: bv64, b: bv64)
    ensures WordBits(Union(a, b)) == WordBits(a) + WordBits(b)
  {
    forall k: nat | k < 64 ensures k in WordBits(Union(a, b)) <==> k in WordBits(a) || k in WordBits(b) {
      OrHas(a, b, k);
    }
  }

  lemma WordZero()
    ensures WordBits(0) == {}
  {
    forall k: nat | k < 64 ensures !Has(0, k) {
      ZeroHas(k);
    }
  }

  /** Two words share no bit exactly when their conjunction is zero. */
  lemma WordClash(a: bv64, b: bv64)
    ensures Clash(a, b) <==> WordBits(a) * WordBits(b) != {}
  {
    if a & b == 0 {
      forall k: nat | k < 64 && Has(a, k) ensures !Has(b, k) {
        AndHas(a, b, k);
        ZeroHas(k);
      }
    } else {
      var k := LowPosition(a & b);
      AndHas(a, b, k);
      assert k in WordBits(a) * WordBits(b);
    }
  }

  /** `remove_mask` undoes `apply_mask` on a word it did not overlap. */
  lemma XorUndoesOr(a: bv64, b: bv64)
    requires !Clash(a, b)
    ensures Toggle(Union(a, b), b) == a
  {
  }

  // ---------------------------------------------------------------------------
  // Masks: one bit per board cell, 64 to a word
  // ---------------------------------------------------------------------------

  type Mask = seq<bv64>

  /** The cells a mask covers: bit `i % 64` of word `i / 64` stands for cell `i`. */
  ghost function Bits(m: Mask): set<nat>
  {
    Spread(WordSets(m))
  }

  ghost function WordSets(m: Mask): seq<set<nat>>
  {
    seq(|m|, j requires 0 <= j < |m| => WordBits(m[j]))
  }

  /** Numbers `64 j + r` for `r` in the `j`-th set. */
  ghost function Spread(ws: seq<set<nat>>): set<nat>
  {
    set i: nat | i < 64 * |ws| && i % 64 in ws[i / 64]
  }

  lemma SpreadAdd(ws: seq<set<nat>>, j: nat, b: nat)
    requires j < |ws| && b < 64
    ensures Spread(ws[j := ws[j] + {b}]) == Spread(ws) + {64 * j + b}
  {
    var vs := ws[j := ws[j] + {b}];
    forall i: nat | i < 64 * |ws| ensures i in Spread(vs) <==> i in Spread(ws) || i == 64 * j + b {
      if i / 64 == j && i % 64 == b {
        assert i == 64 * j + b;
      }
    }
  }

  lemma SpreadUnion(ws: seq<set<nat>>, vs: seq<set<nat>>, us: seq<set<nat>>)
    requires |ws| == |vs| == |us| && forall j :: 0 <= j < |ws| ==> us[j] == ws[j] + vs[j]
    ensures Spread(us) == Spread(ws) + Spread(vs)
  {
  }

  /** Every set holds positions within a word. */
  ghost predicate InWords(ws: seq<set<nat>>)
  {
    forall j, r :: 0 <= j < |ws| && r in ws[j] ==> r < 64
  }

  lemma WordSetsInWords(m: Mask)
    ensures InWords(WordSets(m))
  {
  }

  lemma SpreadDisjoint(ws: seq<set<nat>>, vs: seq<set<nat>>)
    requires |ws| == |vs| && InWords(ws)
    ensures Spread(ws) * Spread(vs) == {} <==> forall j :: 0 <= j < |ws| ==> ws[j] * vs[j] == {}
  {
    if Spread(ws) * Spread(vs) == {} {
      forall j | 0 <= j < |ws| ensures ws[j] * vs[j] == {} {
        forall r | r in ws[j] ensures r !in vs[j] {
          SpreadHas(ws, j, r);
          SpreadHas(vs, j, r);
          assert 64 * j + r !in Spread(ws) * Spread(vs);
        }
      }
    } else {
      var i :| i in Spread(ws) * Spread(vs);
      assert i % 64 in ws[i / 64] * vs[i / 64];
    }
  }

  lemma SpreadHas(ws: seq<set<nat>>, j: nat, r: nat)
    requires j < |ws|
    ensures r in ws[j] && r < 64 ==> 64 * j + r in Spread(ws)
  {
    if r in ws[j] && r < 64 {
      var i := 64 * j + r;
      assert i / 64 == j && i % 64 == r;
    }
  }

  lemma SpreadEmpty(ws: seq<set<nat>>)
    requires forall j :: 0 <= j < |ws| ==> ws[j] == {}
    ensures Spread(ws) == {}
  {
  }

  lemma SpreadBelow(ws: seq<set<nat>>)
    ensures forall i :: i in Spread(ws) ==> i < 64 * |ws|
  {
  }

  /** `vec![0u64; n]`. */
  function Zeros(n: nat): (m: Mask)
    ensures |m| == n
  {
    seq(n, _ => 0)
  }

  lemma ZerosEmpty(n: nat)
    ensures Bits(Zeros(n)) == {}
  {
    WordZero();
    SpreadEmpty(WordSets(Zeros(n)));
  }

  /** `mask[idx / 64] |= 1 << (idx % 64)`. */
  function SetBit(m: Mask, idx: nat): (r: Mask)
    requires idx < 64 * |m|
    ensures |r| == |m|
  {
    m[idx / 64 := Union(m[idx / 64], BitAt(idx % 64))]
  }

  lemma SetBitBits(m: Mask, idx: nat)
    requires idx < 64 * |m|
    ensures Bits(SetBit(m, idx)) == Bits(m) + {idx}
  {
    var j, b := idx / 64, idx % 64;
    WordSetBit(m[j], b);
    var ws := WordSets(m);
    assert WordSets(SetBit(m, idx)) == ws[j := ws[j] + {b}];
    SpreadAdd(ws, j, b);
  }

  /** The word-by-word `|` of `apply_mask`, over the words both have. */
  function OrWords(o: Mask, m: Mask): (r: Mask)
    ensures |r| == |o|
  {
    seq(|o|, i requires 0 <= i < |o| => if i < |m| then Union(o[i], m[i]) else o[i])
  }

  /** The word-by-word `^` of `remove_mask`, over the words both have. */
  function XorWords(o: Mask, m: Mask): (r: Mask)
    ensures |r| == |o|
  {
    seq(|o|, i requires 0 <= i < |o| => if i < |m| then Toggle(o[i], m[i]) else o[i])
  }

  /** `overlaps`: some pair of words, taken side by side, shares a bit. */
  predicate Overlaps(m: Mask, o: Mask)
  {
    exists i :: 0 <= i < |m| && i < |o| && Clash(m[i], o[i])
  }

  lemma OrBits(o: Mask, m: Mask)
    requires |o| == |m|
    ensures Bits(OrWords(o, m)) == Bits(o) + Bits(m)
  {
    var r := OrWords(o, m);
    forall j | 0 <= j < |o| ensures WordSets(r)[j] == WordSets(o)[j] + WordSets(m)[j] {
      OrWordSet(o, m, j);
    }
    SpreadUnion(WordSets(o), WordSets(m), WordSets(r));
  }

  lemma OrWordSet(o: Mask, m: Mask, j: nat)
    requires |o| == |m| && j < |o|
    ensures WordSets(OrWords(o, m))[j] == WordSets(o)[j] + WordSets(m)[j]
  {
    WordOr(o[j], m[j]);
  }

  lemma ClashWordSet(m: Mask, o: Mask, j: nat)
    requires |o| == |m| && j < |o|
    ensures Clash(m[j], o[j]) <==> WordSets(m)[j] * WordSets(o)[j] != {}
  {
    WordClash(m[j], o[j]);
  }

  /** Masks of one length overlap exactly when they cover a common cell. */
  lemma OverlapsMeaning(m: Mask, o: Mask)
    requires |m| == |o|
    ensures Overlaps(m, o) <==> Bits(m) * Bits(o) != {}
  {
    forall j | 0 <= j < |m| ensures Clash(m[j], o[j]) <==> WordSets(m)[j] * WordSets(o)[j] != {} {
      ClashWordSet(m, o, j);
    }
    WordSetsInWords(m);
    SpreadDisjoint(WordSets(m), WordSets(o));
  }

  /** `remove_mask` after `apply_mask` of a mask that did not overlap restores the words. */
  lemma XorRestores(o: Mask, m: Mask)
    requires |o| == |m| && !Overlaps(m, o)
    ensures XorWords(OrWords(o, m), m) == o
  {
    forall i | 0 <= i < |o| ensures XorWords(OrWords(o, m), m)[i] == o[i] {
      XorWordRestores(o, m, i);
    }
  }

  lemma XorWordRestores(o: Mask, m: Mask, i: nat)
    requires |o| == |m| && !Overlaps(m, o) && i < |o|
    ensures XorWords(OrWords(o, m), m)[i] == o[i]
  {
    assert !Clash(m[i], o[i]);
    XorUndoesOr(o[i], m[i]);
  }

  /** `apply_mask`. */
  method ApplyMask(occupied: array<bv64>, mask: Mask)
    modifies occupied
    ensures occupied[..] == OrWords(old(occupied[..]), mask)
  {
    ghost var before := occupied[..];
    for i := 0 to occupied.Length
      invariant forall k :: 0 <= k < occupied.Length ==>
                  occupied[k] == if k < i then OrWords(before, mask)[k] else before[k]
    {
      if i < |mask| {
        occupied[i] := Union(occupied[i], mask[i]);
      }
    }
  }

  /** `remove_mask`. */
  method RemoveMask(occupied: array<bv64>, mask: Mask)
    modifies occupied
    ensures occupied[..] == XorWords(old(occupied[..]), mask)
  {
    ghost var before := occupied[..];
    for i := 0 to occupied.Length
      invariant forall k :: 0 <= k < occupied.Length ==>
                  occupied[k] == if k < i then XorWords(before, mask)[k] else before[k]
    {
      if i < |mask| {
        occupied[i] := Toggle(occupied[i], mask[i]);
      }
    }
  }
}
