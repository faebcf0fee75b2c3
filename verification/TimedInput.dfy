/** The timed wait of NCDialog::getch: curses can wait at most 250 tenths of a second at a time,
    so a longer timeout is waited for in chunks. */
module TimedInput {

  /** The arguments given to halfdelay when no key arrives, in tenths of a second. */
  function Chunks(millisec: int): seq<int>
    requires millisec > 0
    decreases millisec
  {
    if millisec > 25000 then [250] + Chunks(millisec - 25000)
    else if millisec < 100 then [1]
    else [millisec / 100]
  }

  function Total(delays: seq<int>): int {
    if delays == [] then 0 else delays[0] + Total(delays[1..])
  }

  /** The wait ends, every chunk is one curses accepts, and all chunks together miss the
      requested time by less than a tenth of a second. */
  lemma {:induction false} ChunksAreAccurate(millisec: int)
    requires millisec > 0
    ensures forall k :: 0 <= k < |Chunks(millisec)| ==> 1 <= Chunks(millisec)[k] <= 250
    ensures -99 <= 100 * Total(Chunks(millisec)) - millisec <= 99
    ensures |Chunks(millisec)| == (millisec + 24999) / 25000
    decreases millisec
  {
    if millisec > 25000 {
      ChunksAreAccurate(millisec - 25000);
      assert Chunks(millisec)[1..] == Chunks(millisec - 25000);
    } else {
      assert Chunks(millisec)[1..] == [];
    }
  }

  /** Only a last stretch of less than 100 milliseconds is waited for too long; it is what makes
      the whole wait exceed the request. */
  lemma {:induction false} WaitsLongerOnlyForShortRest(millisec: int)
    requires millisec > 0
    ensures 100 * Total(Chunks(millisec)) > millisec <==> 0 < millisec % 25000 < 100
    decreases millisec
  {
    if millisec > 25000 {
      WaitsLongerOnlyForShortRest(millisec - 25000);
      assert Chunks(millisec)[1..] == Chunks(millisec - 25000);
    } else {
      assert Chunks(millisec)[1..] == [];
    }
  }

  /** The loop for a positive timeout; keyAt(k) says whether a key arrives during chunk k.  The
      chunks are those of the whole timeout, cut short by the first key. */
  method WaitForKey(millisec: int, keyAt: nat -> bool) returns (delays: seq<int>, got: bool)
    requires millisec > 0
    ensures delays != [] && delays <= Chunks(millisec)
    ensures forall k :: 0 <= k < |delays| - 1 ==> !keyAt(k)
    ensures got == keyAt(|delays| - 1)
    ensures !got ==> delays == Chunks(millisec)
  {
    var timeout := millisec;
    delays, got := [], false;
    while true
      invariant timeout > 0 && delays + Chunks(timeout) == Chunks(millisec)
      invariant forall k :: 0 <= k < |delays| ==> !keyAt(k)
      decreases timeout
    {
      var delay;
      ghost var rest := Chunks(timeout);
      if timeout > 25000 {
        delay := 250;
        timeout := timeout - 25000;
        assert rest == [delay] + Chunks(timeout);
        assert delays + rest == (delays + [delay]) + Chunks(timeout);
      } else {
        if timeout < 100 {
          delay := 1;
        } else {
          delay := timeout / 100;
        }
        timeout := 0;
      }
      delays := delays + [delay];
      got := keyAt(|delays| - 1);
      if got || timeout <= 0 {
        return;
      }
    }
  }
}
