/** One's-complement arithmetic on 16-bit words, as the Internet checksum uses it
    (section 2 of RFC 1071). */
module OnesComplement {
  import opened Words
  import opened Sums

  /** The word with these two bytes. */
  function Pair(lo: byte, hi: byte): word {
    lo as int + 0x100 * (hi as int)
  }

  /** Addition with end-around carry. */
  function Eac(a: word, b: word): word {
    if a + b > 0xFFFF then a + b - 0xFFFF else a + b
  }

  /** The reference: add word by word, wrapping every carry round at once. */
  function EacSum(ws: seq<word>): word {
    if ws == [] then 0 else Eac(EacSum(ws[..|ws| - 1]), ws[|ws| - 1])
  }

  /** What folding the carries of s into 16 bits arrives at. */
  function Folded(s: nat): word {
    if s == 0 then 0 else (s - 1) % 0xFFFF + 1
  }

  /** One pass of the fold loop does not change what it arrives at. */
  lemma FoldOnce(s: nat)
    ensures Folded(s % 0x1_0000 + s / 0x1_0000) == Folded(s)
    ensures s >= 0x1_0000 ==> s % 0x1_0000 + s / 0x1_0000 < s
  {
    var q, r := s / 0x1_0000, s % 0x1_0000;
    assert s == 0xFFFF * q + (r + q);
    if s > 0 { ModAddMultiple(r + q - 1, q); }
  }

  lemma ModAddMultiple(x: int, q: int)
    ensures (0xFFFF * q + x) % 0xFFFF == x % 0xFFFF
  {
  }

  lemma FoldedAdd(s: nat, w: word)
    ensures Folded(s + w) == Eac(Folded(s), w)
  {
  }

  /** Deferring the carries makes no difference: the folded plain sum is the
      end-around-carry sum. */
  lemma {:induction false} DeferredCarries(ws: seq<word>)
    ensures Folded(Sum(ws)) == EacSum(ws)
  {
    if ws != [] {
      DeferredCarries(ws[..|ws| - 1]);
      FoldedAdd(Sum(ws[..|ws| - 1]), ws[|ws| - 1]);
    }
  }

  lemma {:induction false} SumBound(ws: seq<word>)
    ensures Sum(ws) <= 0xFFFF * |ws|
  {
    if ws != [] { SumBound(ws[..|ws| - 1]); }
  }

  // ------------------------------------------------------------ byte order

  /** The same two bytes read in the other order. */
  function Swap(w: word): word {
    w % 0x100 * 0x100 + w / 0x100
  }

  lemma SwapTwice(w: word)
    ensures Swap(Swap(w)) == w && Swap(0xFFFF - w) == 0xFFFF - Swap(w)
  {
    var lo, hi := w % 0x100, w / 0x100;
    SwapOf(lo, hi, w);
    SwapOf(hi, lo, Swap(w));
    SwapOf(0xFF - lo, 0xFF - hi, 0xFFFF - w);
  }

  lemma SwapPair(lo: byte, hi: byte)
    ensures Swap(Pair(lo, hi)) == Pair(hi, lo)
  {
    SwapOf(lo, hi, Pair(lo, hi));
  }

  lemma SwapBytes(w: word)
    ensures Swap(w) % 0x100 == w / 0x100 && Swap(w) / 0x100 == w % 0x100
  {
    SwapOf(w % 0x100, w / 0x100, w);
  }

  lemma SwapEac(a: word, b: word)
    ensures Swap(Eac(a, b)) == Eac(Swap(a), Swap(b))
  {
    var a0, a1, b0, b1 := a % 0x100, a / 0x100, b % 0x100, b / 0x100;
    var lo := a0 + b0;
    var hi := a1 + b1;
    assert a + b == hi * 0x100 + lo;
    assert Swap(a) + Swap(b) == lo * 0x100 + hi;
    if a + b <= 0xFFFF {
      SwapOf(if lo < 0x100 then lo else lo - 0x100, if lo < 0x100 then hi else hi + 1, a + b);
    } else {
      var s := a + b - 0xFFFF;
      var l := lo + 1;
      var h := hi - 0x100;
      if l < 0x100 { SwapOf(l, h, s); } else if l - 0x100 < 0x100 { SwapOf(l - 0x100, h + 1, s); }
    }
  }

  lemma SwapOf(lo: int, hi: int, w: word)
    requires 0 <= lo < 0x100 && 0 <= hi < 0x100 && w == hi * 0x100 + lo
    ensures Swap(w) == lo * 0x100 + hi
  {
  }

  function SwapAll(ws: seq<word>): (r: seq<word>)
    ensures |r| == |ws|
  {
    seq(|ws|, i requires 0 <= i < |ws| => Swap(ws[i]))
  }

  /** Byte-order independence (section 2(B) of RFC 1071). */
  lemma {:induction false} EacSumSwapped(ws: seq<word>)
    ensures EacSum(SwapAll(ws)) == Swap(EacSum(ws))
  {
    if ws != [] {
      var init := ws[..|ws| - 1];
      EacSumSwapped(init);
      assert SwapAll(ws)[..|ws| - 1] == SwapAll(init);
      SwapEac(EacSum(init), ws[|ws| - 1]);
    }
  }

  // ---------------------------------------------------- changing one word

  function Checksum(ws: seq<word>): word {
    0xFFFF - EacSum(ws)
  }

  function NewChecksum(hc: word, m: word, m': word): word {
    0xFFFF - Eac(Eac(0xFFFF - hc, 0xFFFF - m), m')
  }

  /** Section 3 of RFC 1624: the incremental formula gives the new checksum
      unless every word of the new data is zero. */
  lemma IncrementalUpdate(ws: seq<word>, i: nat, m': word)
    requires i < |ws|
    ensures NewChecksum(Checksum(ws), ws[i], m') == Checksum(ws[i := m']) <==> Sum(ws[i := m']) != 0
  {
    var rest := Sum(ws[i := 0]);
    FoldWithout(ws, i, ws[i]);
    FoldWithout(ws, i, m');
    assert ws[i := ws[i]] == ws;
    UpdateFormula(Folded(rest), ws[i], m');
  }

  /** The checksum of ws with word i set to w, from the words other than i. */
  lemma FoldWithout(ws: seq<word>, i: nat, w: word)
    requires i < |ws|
    ensures var rest := Sum(ws[i := 0]);
            && Checksum(ws[i := w]) == 0xFFFF - Eac(Folded(rest), w)
            && Sum(ws[i := w]) == rest + w && (Folded(rest) == 0 <==> rest == 0)
  {
    SumUpdate(ws, i, 0);
    SumUpdate(ws, i, w);
    DeferredCarries(ws[i := w]);
    FoldedAdd(Sum(ws[i := 0]), w);
  }

  lemma UpdateFormula(rest: word, m: word, m': word)
    ensures NewChecksum(0xFFFF - Eac(rest, m), m, m') == 0xFFFF - Eac(rest, m') <==> rest + m' != 0
  {
  }

  /** Two words that add alike to the same rest are equal, or the two zeros on a
      rest that is not zero. */
  lemma SameFold(rest: word, m: word, m': word)
    requires m < m'
    ensures Eac(rest, m) == Eac(rest, m') <==> m == 0 && m' == 0xFFFF && rest != 0
  {
  }

  /** The one change of a single word that the checksum cannot see. */
  lemma UndetectedChange(ws: seq<word>, i: nat, m': word)
    requires i < |ws| && m' != ws[i]
    ensures Checksum(ws[i := m']) == Checksum(ws) <==>
            ((ws[i] == 0 && m' == 0xFFFF) || (ws[i] == 0xFFFF && m' == 0)) && Sum(ws[i := 0]) != 0
  {
    var rest := Sum(ws[i := 0]);
    FoldWithout(ws, i, ws[i]);
    FoldWithout(ws, i, m');
    assert ws[i := ws[i]] == ws;
    if ws[i] < m' { SameFold(Folded(rest), ws[i], m'); } else { SameFold(Folded(rest), m', ws[i]); }
  }
}
