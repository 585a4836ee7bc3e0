/** The set of pages a reveal has drawn, kept as the bits of one machine word. */
module PageBits {
  import opened Wrappers

  const WORD_BITS: nat := 32

  /** `1 << n` before it is cut to a word. */
  function Pow2(n: nat): (r: nat)
    ensures r >= 1
  {
    if n == 0 then 1 else 2 * Pow2(n - 1)
  }

  /** Bitwise or. */
  function Or(a: nat, b: nat): nat
    decreases a + b
  {
    if a == 0 && b == 0 then 0
    else 2 * Or(a / 2, b / 2) + if a % 2 == 1 || b % 2 == 1 then 1 else 0
  }

  predicate HasBit(w: nat, n: nat) {
    if n == 0 then w % 2 == 1 else HasBit(w / 2, n - 1)
  }

  /** `page_bit`: `checked_shl`, so that page 32 has no bit rather than page 0's. */
  function PageBit(page: nat): Option<nat> {
    if page < WORD_BITS then Some(Pow2(page)) else None
  }

  /** `all_pages`: the full set of a `len`-page reveal, `None` for no pages or more than 31. */
  function AllPages(len: nat): Option<nat> {
    match PageBit(len)
    case None => None
    case Some(bits) => if bits == 1 then None else Some(bits - 1)
  }

  /** `seen |= page_bit(page).unwrap_or(0)`. */
  function Mark(w: nat, page: nat): nat {
    match PageBit(page)
    case None => w
    case Some(bit) => Or(w, bit)
  }

  /** The pages a word stands for. */
  ghost function Pages(w: nat): set<nat> {
    set p: nat | p < WORD_BITS && HasBit(w, p)
  }

  predicate IsPageOf(page: nat, len: nat) {
    page < len
  }

  /** The pages of a `len`-page reveal. */
  ghost function Whole(len: nat): set<nat> {
    set p: nat | p < len && IsPageOf(p, len)
  }

  // ---- bits

  lemma {:induction false} OrBit(a: nat, b: nat, n: nat)
    ensures HasBit(Or(a, b), n) <==> HasBit(a, n) || HasBit(b, n)
    decreases n
  {
    OrHalves(a, b);
    if n > 0 {
      OrBit(a / 2, b / 2, n - 1);
    }
  }

  lemma OrHalves(a: nat, b: nat)
    ensures Or(a, b) / 2 == Or(a / 2, b / 2)
    ensures Or(a, b) % 2 == if a % 2 == 1 || b % 2 == 1 then 1 else 0
  {
  }

  lemma {:induction false} OrFits(a: nat, b: nat, n: nat)
    requires a < Pow2(n) && b < Pow2(n)
    ensures Or(a, b) < Pow2(n)
    decreases n
  {
    OrHalves(a, b);
    if n > 0 {
      OrFits(a / 2, b / 2, n - 1);
    }
  }

  lemma {:induction false} Pow2Bit(k: nat, n: nat)
    ensures HasBit(Pow2(k), n) <==> n == k
    decreases n
  {
    if n > 0 {
      if k == 0 {
        ZeroHasNone(n - 1);
      } else {
        Pow2Bit(k - 1, n - 1);
      }
    }
  }

  lemma {:induction false} ZeroHasNone(n: nat)
    ensures !HasBit(0, n)
  {
    if n > 0 {
      ZeroHasNone(n - 1);
    }
  }

  lemma {:induction false} MaskBit(k: nat, n: nat)
    ensures HasBit(Pow2(k) - 1, n) <==> n < k
    decreases n
  {
    if k == 0 {
      ZeroHasNone(n);
    } else if n > 0 {
      assert (Pow2(k) - 1) / 2 == Pow2(k - 1) - 1;
      MaskBit(k - 1, n - 1);
    }
  }

  lemma {:induction false} SameBitsSameWord(v: nat, w: nat, n: nat)
    requires v < Pow2(n) && w < Pow2(n)
    requires forall i: nat :: i < n ==> (HasBit(v, i) <==> HasBit(w, i))
    ensures v == w
  {
    if n > 0 {
      assert HasBit(v, 0) <==> HasBit(w, 0);
      forall i: nat | i < n - 1
        ensures HasBit(v / 2, i) <==> HasBit(w / 2, i)
      {
        assert HasBit(v, i + 1) <==> HasBit(w, i + 1);
      }
      SameBitsSameWord(v / 2, w / 2, n - 1);
    }
  }

  // ---- pages

  /** Marking a page adds it and no other; a page past the word adds nothing, and nothing is lost. */
  lemma MarkAdds(w: nat, page: nat)
    requires w < Pow2(WORD_BITS)
    ensures Pages(Mark(w, page)) == if page < WORD_BITS then Pages(w) + {page} else Pages(w)
    ensures Mark(w, page) < Pow2(WORD_BITS)
  {
    if page < WORD_BITS {
      forall q: nat
        ensures HasBit(Mark(w, page), q) <==> HasBit(w, q) || q == page
      {
        OrBit(w, Pow2(page), q);
        Pow2Bit(page, q);
      }
      Pow2Grows(page, WORD_BITS);
      OrFits(w, Pow2(page), WORD_BITS);
    }
  }

  lemma {:induction false} Pow2Grows(a: nat, b: nat)
    requires a < b
    ensures Pow2(a) < Pow2(b)
  {
    if a + 1 < b {
      Pow2Grows(a, b - 1);
    }
  }

  lemma NothingMarked()
    ensures Pages(0) == {}
  {
    forall q: nat
      ensures !HasBit(0, q)
    {
      ZeroHasNone(q);
    }
  }

  /** The complete word exists for one to 31 pages. */
  lemma AllPagesDefined(len: nat)
    ensures AllPages(len).Some? <==> 1 <= len <= 31
  {
    if len > 0 {
      Pow2Grows(0, len);
    }
  }

  /** The word test at a reveal's end: equal to the complete word exactly when every page was marked. */
  lemma CompleteIffEveryPage(w: nat, len: nat)
    requires w < Pow2(WORD_BITS)
    ensures AllPages(len) == Some(w) <==> 1 <= len <= 31 && Pages(w) == Whole(len)
  {
    AllPagesDefined(len);
    if 1 <= len <= 31 {
      var full := AllPages(len).value;
      forall q: nat
        ensures HasBit(full, q) <==> q < len
      {
        MaskBit(len, q);
      }
      assert Pages(full) == Whole(len);
      Pow2Grows(len, WORD_BITS);
      if Pages(w) == Whole(len) {
        forall i: nat | i < WORD_BITS
          ensures HasBit(w, i) <==> HasBit(full, i)
        {
          assert i in Pages(w) <==> i in Pages(full);
        }
        SameBitsSameWord(w, full, WORD_BITS);
      }
    }
  }
}
