/** The 128-packet anti-replay window and the set it stands for. */
module Replay {
  import opened Words
  import opened BitOps

  const WINDOW_SIZE := 128

  /** The window's decision, in terms of all sequence numbers accepted so far and
    * those still marked: not marked, and less than 128 behind the greatest accepted
    * (in unbounded arithmetic). */
  ghost predicate Passes(accepted: set<uint64>, marked: set<uint64>, seqno: uint64) {
    seqno !in marked && forall x <- accepted :: x < (seqno as int) + 128
  }

  /** The decision of a window that was never cleared. */
  ghost predicate Admits(accepted: set<uint64>, seqno: uint64) {
    Passes(accepted, accepted, seqno)
  }

  ghost function Admit(accepted: set<uint64>, seqno: uint64): set<uint64> {
    if Admits(accepted, seqno) then accepted + {seqno} else accepted
  }

  /** Go's [2]uint64, a value. */
  datatype Bitmap = Bitmap(w0: Word, w1: Word) {
    function At(i: nat): Word
      requires i < 2
    {
      if i == 0 then w0 else w1
    }

    function With(i: nat, w: Word): Bitmap
      requires i < 2
    {
      if i == 0 then this.(w0 := w) else this.(w1 := w)
    }
  }

  /** maxSeq is the greatest accepted number, and bit d of the bitmap is set exactly
    * when maxSeq - d is marked. */
  ghost predicate Represents(b: Bitmap, maxSeq: uint64, accepted: set<uint64>, marked: set<uint64>) {
    && (forall x <- accepted :: x <= maxSeq)
    && (maxSeq == 0 || maxSeq in accepted)
    && marked <= accepted
    && forall d: nat | d < 128 ::
         PairBit(b.w0, b.w1, d) <==> d <= maxSeq && maxSeq - d in marked
  }

  /** The cleared bitmap marks nothing, whatever was accepted before. */
  lemma ClearRepresents(b: Bitmap, maxSeq: uint64, accepted: set<uint64>, marked: set<uint64>)
    requires Represents(b, maxSeq, accepted, marked)
    ensures Represents(Bitmap(0, 0), maxSeq, accepted, {})
  {
    hide Bit;
    forall d: nat | d < WINDOW_SIZE ensures !PairBit(0, 0, d) {
      BitOfZero(d % 64);
    }
  }

  lemma EmptyRepresents()
    ensures Represents(Bitmap(0, 0), 0, {}, {})
  {
    hide Bit;
    forall d: nat | d < WINDOW_SIZE ensures !PairBit(0, 0, d) {
      BitOfZero(d % 64);
    }
  }

  /** s is b shifted by diff, in the code's three cases. */
  predicate Shifted(b: Bitmap, s: Bitmap, diff: nat) {
    if diff >= WINDOW_SIZE then s == Bitmap(0, 0)
    else if diff >= 64 then s == Bitmap(0, ShiftLeft(b.w0, diff - 64))
    else s == Bitmap(ShiftLeft(b.w0, diff), Or(ShiftLeft(b.w1, diff), ShiftRight(b.w0, 64 - diff)))
  }

  /** Advancing by diff moves every bit up by diff, drops those past 127 and sets bit 0. */
  lemma Advanced(b: Bitmap, s: Bitmap, diff: nat, d: nat)
    requires diff > 0 && d < WINDOW_SIZE && Shifted(b, s, diff)
    ensures PairBit(Or(s.w0, 1), s.w1, d) <==> d == 0 || (diff <= d && PairBit(b.w0, b.w1, d - diff))
  {
    hide Bit, Or, ShiftLeft, ShiftRight;
    if diff >= WINDOW_SIZE {
      BitOfZero(d % 64);
    } else if diff >= 64 {
      ShiftByWord(b.w0, b.w1, diff, d);
    } else {
      ShiftWithCarry(b.w0, b.w1, diff, d);
    }
    if d < 64 {
      assert Mask(0) == 1 by { MaskStep(0); }
      SetBit(s.w0, 0, d);
    }
  }

  lemma AdvanceRepresents(b: Bitmap, s: Bitmap, maxSeq: uint64, accepted: set<uint64>, marked: set<uint64>, seqno: uint64)
    requires Represents(b, maxSeq, accepted, marked) && seqno > maxSeq
    requires Shifted(b, s, seqno - maxSeq)
    ensures Represents(s.(w0 := Or(s.w0, 1)), seqno, accepted + {seqno}, marked + {seqno})
  {
    hide PairBit, Shifted, Or;
    var diff := seqno - maxSeq;
    forall d: nat | d < WINDOW_SIZE
      ensures PairBit(Or(s.w0, 1), s.w1, d) <==> d <= seqno && seqno - d in marked + {seqno}
    {
      Advanced(b, s, diff, d);
      if d >= diff {
        assert seqno - d == maxSeq - (d - diff);
      }
    }
  }

  /** The bitmap with bit diff set by or-ing a mask into its word. */
  function Mark(b: Bitmap, diff: nat): Bitmap
    requires diff < WINDOW_SIZE
  {
    b.With(diff / 64, Or(b.At(diff / 64), Mask(diff % 64)))
  }

  lemma Marked(b: Bitmap, diff: nat, d: nat)
    requires diff < WINDOW_SIZE && d < WINDOW_SIZE
    ensures var s := Mark(b, diff); PairBit(s.w0, s.w1, d) <==> PairBit(b.w0, b.w1, d) || d == diff
  {
    hide Bit, Or, Mask;
    if diff < 64 && d < 64 {
      SetBit(b.w0, diff, d);
    } else if diff >= 64 && d >= 64 {
      SetBit(b.w1, diff - 64, d - 64);
    }
  }

  lemma MarkRepresents(b: Bitmap, maxSeq: uint64, accepted: set<uint64>, marked: set<uint64>, seqno: uint64)
    requires Represents(b, maxSeq, accepted, marked)
    requires seqno <= maxSeq && maxSeq - seqno < WINDOW_SIZE
    ensures Represents(Mark(b, maxSeq - seqno), maxSeq, accepted + {seqno}, marked + {seqno})
  {
    hide PairBit, Mark;
    var s := Mark(b, maxSeq - seqno);
    forall d: nat | d < WINDOW_SIZE
      ensures PairBit(s.w0, s.w1, d) <==> d <= maxSeq && maxSeq - d in marked + {seqno}
    {
      Marked(b, maxSeq - seqno, d);
    }
  }

  /** The code's decision: newer than everything, or within reach and not marked. */
  lemma Decides(b: Bitmap, maxSeq: uint64, accepted: set<uint64>, marked: set<uint64>, seqno: uint64)
    requires Represents(b, maxSeq, accepted, marked)
    ensures var diff := maxSeq - seqno;
            Passes(accepted, marked, seqno) <==>
              diff < 0 || (diff < 128 && !Test(b.At(diff / 64), Mask(diff % 64)))
  {
    hide Test, Mask;
    var diff := maxSeq - seqno;
    if 0 <= diff < WINDOW_SIZE {
      assert PairBit(b.w0, b.w1, diff) <==> seqno in marked;
    } else if diff >= WINDOW_SIZE {
      assert maxSeq in accepted;
    }
  }

  class ReplayWindow {
    var maxSeq: uint64
    var bitmap: Bitmap
    ghost var accepted: set<uint64>   // every number ever accepted
    ghost var marked: set<uint64>     // those accepted since the bitmap was cleared

    ghost predicate Valid()
      reads this
    {
      Represents(bitmap, maxSeq, accepted, marked)
    }

    /** Valid, and never cleared since something was accepted. */
    ghost predicate Whole()
      reads this
    {
      Valid() && marked == accepted
    }

    constructor ()
      ensures Whole() && accepted == {}
    {
      maxSeq, bitmap, accepted, marked := 0, Bitmap(0, 0), {}, {};
      new;
      EmptyRepresents();
    }

    /** Wiping clears the bitmap only: the numbers are forgotten, their greatest is not. */
    method ClearBitmap()
      requires Valid()
      modifies this
      ensures Valid() && marked == {} && accepted == old(accepted)
      ensures bitmap == Bitmap(0, 0) && maxSeq == old(maxSeq)
    {
      ClearRepresents(bitmap, maxSeq, accepted, marked);
      bitmap, marked := Bitmap(0, 0), {};
    }

    method CheckAndSet(seqno: uint64) returns (ok: bool)
      requires Valid()
      modifies this
      ensures Valid()
      ensures ok <==> Passes(old(accepted), old(marked), seqno)
      ensures accepted == old(accepted) + (if ok then {seqno} else {})
      ensures marked == old(marked) + (if ok then {seqno} else {})
    {
      hide Represents, Passes, Or, Test, ShiftLeft, ShiftRight, Mask;
      Decides(bitmap, maxSeq, accepted, marked, seqno);
      if seqno > maxSeq {
        var diff := seqno - maxSeq;
        ghost var was := bitmap;
        if diff >= WINDOW_SIZE {
          bitmap := Bitmap(0, 0);
        } else if diff >= 64 {
          bitmap := bitmap.(w1 := ShiftLeft(bitmap.w0, diff - 64));
          bitmap := bitmap.(w0 := 0);
        } else {
          bitmap := bitmap.(w1 := Or(ShiftLeft(bitmap.w1, diff), ShiftRight(bitmap.w0, 64 - diff)));
          bitmap := bitmap.(w0 := ShiftLeft(bitmap.w0, diff));
        }
        AdvanceRepresents(was, bitmap, maxSeq, accepted, marked, seqno);
        maxSeq := seqno;
        bitmap := bitmap.(w0 := Or(bitmap.w0, 1));
        accepted, marked := accepted + {seqno}, marked + {seqno};
        return true;
      }
      var diff := maxSeq - seqno;
      if diff >= WINDOW_SIZE {
        return false;
      }
      var word, bit := diff / 64, diff % 64;
      if Test(bitmap.At(word), Mask(bit)) {
        return false;
      }
      MarkRepresents(bitmap, maxSeq, accepted, marked, seqno);
      bitmap := bitmap.With(word, Or(bitmap.At(word), Mask(bit)));
      accepted, marked := accepted + {seqno}, marked + {seqno};
      return true;
    }
  }

  /** The sequence numbers accepted when h is presented, in order, to a new window. */
  ghost function Accepted(h: seq<uint64>): (a: set<uint64>)
    ensures forall x <- a :: x in h
  {
    if h == [] then {} else Admit(Accepted(h[..|h| - 1]), h[|h| - 1])
  }

  /** Nothing 128 or more ahead of h[i] came before it. */
  ghost predicate InReach(h: seq<uint64>, i: nat)
    requires i < |h|
  {
    forall k | 0 <= k < i :: h[k] < (h[i] as int) + 128
  }

  ghost predicate FirstInReach(h: seq<uint64>, i: nat)
    requires i < |h|
  {
    h[i] !in h[..i] && InReach(h, i)
  }

  /** Everything ever presented is below the greatest accepted number. */
  lemma {:induction false} AcceptedBoundsHistory(h: seq<uint64>, x: uint64)
    requires x in h
    ensures exists a <- Accepted(h) :: x <= a
  {
    var A, last := Accepted(h[..|h| - 1]), h[|h| - 1];
    assert h == h[..|h| - 1] + [last];
    if x == last {
      if last !in A && !Admits(A, last) {
        var a :| a in A && !(a < last + WINDOW_SIZE);
        assert a in Accepted(h) && x <= a;
      } else {
        assert last in Accepted(h);
      }
    } else {
      AcceptedBoundsHistory(h[..|h| - 1], x);
      var a :| a in A && x <= a;
      assert a in Accepted(h);
    }
  }

  /** Anything presented but not accepted is out of reach of the greatest number. */
  lemma {:induction false} RejectedIsOld(h: seq<uint64>, x: uint64)
    requires x in h && x !in Accepted(h)
    ensures exists a <- Accepted(h) :: a >= (x as int) + 128
  {
    var A, last := Accepted(h[..|h| - 1]), h[|h| - 1];
    assert h == h[..|h| - 1] + [last];
    if x == last {
      var a :| a in A && a >= last + WINDOW_SIZE;
      assert a in Accepted(h);
    } else {
      RejectedIsOld(h[..|h| - 1], x);
      var a :| a in A && a >= x + WINDOW_SIZE;
      assert a in Accepted(h);
    }
  }

  /** For every history: a packet is accepted exactly when it is the first of its
    * number and nothing 128 or more ahead of it came earlier. */
  lemma {:induction false} AcceptsExactlyFirstInReach(h: seq<uint64>, i: nat)
    requires i < |h|
    ensures Admits(Accepted(h[..i]), h[i]) <==> FirstInReach(h, i)
  {
    var p, A := h[..i], Accepted(h[..i]);
    if Admits(A, h[i]) {
      if h[i] in p {
        RejectedIsOld(p, h[i]);
        assert false;
      }
      forall k | 0 <= k < i ensures h[k] < h[i] + WINDOW_SIZE {
        assert p[k] == h[k];
        AcceptedBoundsHistory(p, h[k]);
      }
    } else if h[i] !in A {
      var x :| x in A && !(x < h[i] + WINDOW_SIZE);
      assert x in p;
    }
  }

  lemma FirstInReachOfPrefix(h: seq<uint64>, n: nat, k: nat)
    requires k < n <= |h|
    ensures FirstInReach(h[..n], k) <==> FirstInReach(h, k)
  {
    assert h[..n][..k] == h[..k];
  }

  /** The accepted set, without reference to the window. */
  lemma {:induction false} AcceptedIsFirstInReach(h: seq<uint64>, c: uint64)
    ensures c in Accepted(h) <==> exists k | 0 <= k < |h| :: h[k] == c && FirstInReach(h, k)
  {
    if h != [] {
      var p, last := h[..|h| - 1], |h| - 1;
      AcceptedIsFirstInReach(p, c);
      AcceptsExactlyFirstInReach(h, last);
      hide FirstInReach, Admits;
      forall k | 0 <= k < last ensures FirstInReach(p, k) <==> FirstInReach(h, k) {
        FirstInReachOfPrefix(h, last, k);
      }
      if c in Accepted(p) {
        var k :| 0 <= k < |p| && p[k] == c && FirstInReach(p, k);
        assert h[k] == c && FirstInReach(h, k);
      }
      if k :| 0 <= k < |h| && h[k] == c && FirstInReach(h, k) {
        if k < last {
          assert p[k] == c && FirstInReach(p, k);
        }
      }
    }
  }

  lemma AcceptedStep(h: seq<uint64>, i: nat)
    requires i < |h|
    ensures Accepted(h[..i + 1]) == Admit(Accepted(h[..i]), h[i])
  {
    assert h[..i + 1][..i] == h[..i];
  }

  lemma AcceptedMore(h: seq<uint64>, c: uint64)
    ensures Accepted(h + [c]) == Admit(Accepted(h), c)
    ensures Admits(Accepted(h), c) ==> c !in Accepted(h)
    ensures Accepted(h + []) == Accepted(h)
  {
    assert (h + [c])[..|h|] == h;
    assert h + [] == h;
  }

  /** Presenting a whole history to the class gives the decisions stated above. */
  method PresentAll(h: seq<uint64>) returns (decisions: seq<bool>)
    ensures |decisions| == |h|
    ensures forall i | 0 <= i < |h| ::
      decisions[i] <==> h[i] !in h[..i] && forall k | 0 <= k < i :: h[k] < (h[i] as int) + 128
  {
    var rw := new ReplayWindow();
    decisions := [];
    assert h[..0] == [];
    hide Represents, Passes, FirstInReach, Accepted;
    for i := 0 to |h|
      invariant rw.Whole() && rw.accepted == Accepted(h[..i])
      invariant |decisions| == i
      invariant forall k | 0 <= k < i :: decisions[k] <==> FirstInReach(h, k)
    {
      var ok := rw.CheckAndSet(h[i]);
      AcceptsExactlyFirstInReach(h, i);
      AcceptedStep(h, i);
      decisions := decisions + [ok];
    }
  }
}
