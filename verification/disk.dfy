/**
 * The output file as the tool produces it: it is opened truncated, and each table is placed with a
 * seek to an absolute offset followed by a write. Bytes that no write covers read back as zero.
 */
module Disk {
  import opened Bytes

  /** One seek-and-write: `data` placed at byte `offset` of the file. */
  datatype Write = Write(offset: int, data: seq<byte>) {
    function Stop(): int {
      offset + |data|
    }
  }

  /** Every write lands at a non-negative offset, after the bytes of the write before it. */
  predicate Ascending(ws: seq<Write>) {
    && (forall i :: 0 <= i < |ws| ==> ws[i].offset >= 0)
    && (forall i :: 0 <= i < |ws| - 1 ==> ws[i].Stop() <= ws[i + 1].offset)
  }

  /** The file left by ascending writes: each write after a run of zeros up to its offset. */
  function Image(ws: seq<Write>): (img: seq<byte>)
    requires Ascending(ws)
    ensures ws == [] ==> img == []
    ensures ws != [] ==> |img| == ws[|ws| - 1].Stop()
    decreases |ws|
  {
    if ws == [] then []
    else
      var n := |ws| - 1;
      assert Ascending(ws[..n]);
      var prev := Image(ws[..n]);
      assert n > 0 ==> |prev| == ws[n - 1].Stop();
      prev + Zeros(ws[n].offset - |prev|) + ws[n].data
  }

  /** Each write can be read back from the file at its offset. */
  lemma {:induction false} ReadBack(ws: seq<Write>, i: nat)
    requires Ascending(ws) && i < |ws|
    ensures ws[i].Stop() <= |Image(ws)|
    ensures Image(ws)[ws[i].offset..ws[i].Stop()] == ws[i].data
    decreases |ws|
  {
    var n := |ws| - 1;
    var front := ws[..n];
    assert Ascending(front);
    var prev := Image(front);
    var img := Image(ws);
    assert n > 0 ==> |prev| == ws[n - 1].Stop();
    assert img == prev + Zeros(ws[n].offset - |prev|) + ws[n].data;
    if i == n {
      assert img[ws[i].offset..ws[i].Stop()] == ws[n].data;
    } else {
      assert front[i] == ws[i];
      ReadBack(front, i);
      assert img[..|prev|] == prev;
      assert img[ws[i].offset..ws[i].Stop()] == prev[ws[i].offset..ws[i].Stop()];
    }
  }

  /** A byte no write covers reads as zero. */
  lemma {:induction false} Hole(ws: seq<Write>, k: nat)
    requires Ascending(ws) && k < |Image(ws)|
    requires forall i :: 0 <= i < |ws| ==> !(ws[i].offset <= k < ws[i].Stop())
    ensures Image(ws)[k] == 0
    decreases |ws|
  {
    var n := |ws| - 1;
    var front := ws[..n];
    assert Ascending(front);
    var prev := Image(front);
    assert n > 0 ==> |prev| == ws[n - 1].Stop();
    assert Image(ws) == prev + Zeros(ws[n].offset - |prev|) + ws[n].data;
    if k < |prev| {
      forall i | 0 <= i < |front|
        ensures !(front[i].offset <= k < front[i].Stop())
      {
        assert front[i] == ws[i];
      }
      Hole(front, k);
    }
  }
}
