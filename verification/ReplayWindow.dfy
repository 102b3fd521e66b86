/** The 64-entry sliding window with a bitmap that the documentation describes,
    and how far check_replay is from it. */
module ReplayWindow {
  import opened Words
  import opened Esp

  const SIZE := 64

  /** bits[k] says whether edge - k has been received. */
  datatype Window = Window(edge: uint32, bits: seq<bool>)

  function NoBits(): (r: seq<bool>)
    ensures |r| == SIZE && forall k :: 0 <= k < SIZE ==> !r[k]
  {
    seq(SIZE, _ => false)
  }

  function Shifted(bits: seq<bool>, d: nat): (r: seq<bool>)
    requires |bits| == SIZE
    ensures |r| == SIZE
  {
    seq(SIZE, k requires 0 <= k < SIZE => if k < d then false else bits[k - d])
  }

  predicate Accepts(w: Window, number: uint32)
    requires |w.bits| == SIZE
  {
    number != 0 && (number > w.edge || (w.edge - number < SIZE && !w.bits[w.edge - number]))
  }

  /** Accept and slide forward, or accept and mark, or drop. */
  function Receive(w: Window, number: uint32): (w': Window)
    requires |w.bits| == SIZE
    ensures |w'.bits| == SIZE
  {
    if !Accepts(w, number) then w
    else if number > w.edge then Window(number, Shifted(w.bits, number - w.edge)[0 := true])
    else w.(bits := w.bits[w.edge - number := true])
  }

  function After(numbers: seq<uint32>): (w: Window)
    ensures |w.bits| == SIZE
  {
    if numbers == [] then Window(0, NoBits()) else Receive(After(numbers[..|numbers| - 1]), numbers[|numbers| - 1])
  }

  /** The bitmap is exactly the set of numbers received in the window, and the
      right edge is the one check_replay keeps. */
  ghost predicate Tracks(w: Window, numbers: seq<uint32>) {
    && |w.bits| == SIZE && w.edge == Highest(0, numbers)
    && forall k {:trigger w.bits[k]} :: 0 <= k < SIZE ==> (w.bits[k] <==> w.edge - k > 0 && Seen(numbers, w.edge - k))
  }

  predicate Seen(numbers: seq<uint32>, x: int) {
    x in numbers
  }

  lemma SlideTracks(w: Window, init: seq<uint32>, number: uint32, k: nat)
    requires Tracks(w, init) && number > w.edge && k < SIZE
    ensures Receive(w, number).bits[k] <==> number - k > 0 && Seen(init + [number], number - k)
  {
    var d := number - w.edge;
    if 0 < k < d {
      NothingAbove(init, number - k);
    } else if k >= d {
      assert w.bits[k - d] <==> w.edge - (k - d) > 0 && Seen(init, w.edge - (k - d));
    }
  }

  lemma ReceiveTracks(w: Window, init: seq<uint32>, number: uint32)
    requires Tracks(w, init)
    ensures Tracks(Receive(w, number), init + [number])
  {
    var w' := Receive(w, number);
    assert (init + [number])[..|init|] == init;
    forall k | 0 <= k < SIZE ensures w'.bits[k] <==> w'.edge - k > 0 && Seen(init + [number], w'.edge - k) {
      if number > w.edge {
        SlideTracks(w, init, number, k);
      } else {
        assert w.bits[k] <==> w.edge - k > 0 && Seen(init, w.edge - k);
        assert Seen(init + [number], w.edge - k) <==> Seen(init, w.edge - k) || w.edge - k == number;
      }
    }
  }

  lemma {:induction false} BitmapIsWhatWasSeen(numbers: seq<uint32>)
    ensures Tracks(After(numbers), numbers)
  {
    if numbers != [] {
      BitmapIsWhatWasSeen(numbers[..|numbers| - 1]);
      ReceiveTracks(After(numbers[..|numbers| - 1]), numbers[..|numbers| - 1], numbers[|numbers| - 1]);
      assert numbers == numbers[..|numbers| - 1] + [numbers[|numbers| - 1]];
    }
  }

  lemma NothingAbove(numbers: seq<uint32>, x: int)
    requires x > Highest(0, numbers)
    ensures x !in numbers
  {
    if x in numbers {
      var k :| 0 <= k < |numbers| && numbers[k] == x;
      HighestBounds(0, numbers, k);
    }
  }

  /** What the window accepts, without the bitmap: a number that is not zero, has
      not been seen, and lies above the highest number minus 64. */
  lemma AcceptsIff(numbers: seq<uint32>, number: uint32)
    ensures Accepts(After(numbers), number) <==>
            number != 0 && number !in numbers && number + SIZE > Highest(0, numbers)
  {
    BitmapIsWhatWasSeen(numbers);
    var w := After(numbers);
    if number > w.edge {
      NothingAbove(numbers, number);
    } else if w.edge - number < SIZE {
      assert w.bits[w.edge - number] <==> number > 0 && Seen(numbers, number);
    }
  }

  /** Refinement, on every stream: the two keep the same right edge, check_replay
      accepts only what the window accepts, and the packets on which they differ
      are exactly the unseen ones that are late but inside the window. */
  lemma CodeRefinesWindow(numbers: seq<uint32>, j: nat)
    requires j < |numbers|
    ensures var w := After(numbers[..j]);
            && w.edge == Highest(0, numbers[..j])
            && (Solo(0, numbers)[j] ==> Accepts(w, numbers[j]))
            && (Accepts(w, numbers[j]) && !Solo(0, numbers)[j] <==>
                  && 0 < numbers[j] < w.edge < numbers[j] + SIZE
                  && numbers[j] !in numbers[..j])
  {
    BitmapIsWhatWasSeen(numbers[..j]);
    AcceptsIff(numbers[..j], numbers[j]);
    var w := After(numbers[..j]);
    assert Solo(0, numbers)[j] == Fresh(w.edge, numbers[j]);
    HighestBounds(0, numbers[..j], 0);
  }

  /** The documentation's own example: with 1065 received and 1003 not, the window
      takes a late 1003 and check_replay drops it. */
  lemma LatePacketIsLost()
    ensures Accepts(After([1065]), 1003)
    ensures !Solo(0, [1065, 1003])[1]
  {
    AcceptsIff([1065], 1003);
    assert [1065][..0] == [];
    assert Highest(0, [1065][..0]) == 0;
    assert [1065, 1003][..1] == [1065];
  }
}
