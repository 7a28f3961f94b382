/**
 * Client-side reconstruction of the sequence of Nim views from a game's move
 * history, one view per recorded move.
 */
module Replay {
  import opened JsValues
  import opened GameTypes

  /** The number of objects a Nim replay starts with. */
  const StartNimObjects: real := 21.0

  /** A history element as the client receives it: a record with a `move` field, or nothing. */
  datatype HistoryEntry = Entry(move: JsValue) | NoEntry

  /** What an entry subtracts: its move when that is a number, else 0. */
  function MoveAmount(e: HistoryEntry): real {
    if e.Entry? && e.move.JNum? then e.move.x else 0.0
  }

  /** The total subtracted by a list of entries. */
  function MoveSum(h: seq<HistoryEntry>): real
    decreases |h|
  {
    if h == [] then 0.0 else MoveSum(h[..|h| - 1]) + MoveAmount(h[|h| - 1])
  }

  /** The view shown after the first k entries have been replayed. */
  function ViewAfter(h: seq<HistoryEntry>, k: nat): TaggedGameView
    requires k <= |h|
  {
    NimTagged(NimView(StartNimObjects - MoveSum(h[..k]), k % 2))
  }

  /** `views` holds, in order, the view after each entry of `h`. */
  predicate IsNimReplay(h: seq<HistoryEntry>, views: seq<TaggedGameView>) {
    |views| == |h| && forall i :: 0 <= i < |h| ==> views[i] == ViewAfter(h, i + 1)
  }

  /**
   * Replays the history: starting from 21 objects and player 0, each entry
   * subtracts its move and hands the turn to the other player.
   */
  method BuildNimViews(history: seq<HistoryEntry>) returns (views: seq<TaggedGameView>)
    ensures IsNimReplay(history, views)
  {
    views := [];
    var remaining := StartNimObjects;
    var nextPlayer := 0;
    for i := 0 to |history|
      invariant |views| == i
      invariant remaining == StartNimObjects - MoveSum(history[..i])
      invariant nextPlayer == i % 2
      invariant forall j :: 0 <= j < i ==> views[j] == ViewAfter(history, j + 1)
    {
      assert history[..i + 1][..i] == history[..i];
      var move := MoveAmount(history[i]);
      remaining := remaining - move;
      nextPlayer := if nextPlayer == 0 then 1 else 0;
      views := views + [NimTagged(NimView(remaining, nextPlayer))];
    }
  }

  /** Only Nim has a replay; every other game type replays to nothing. */
  method BuildHistoryViews(gameType: GameKey, history: seq<HistoryEntry>) returns (views: seq<TaggedGameView>)
    ensures gameType == Nim ==> IsNimReplay(history, views)
    ensures gameType != Nim ==> views == []
  {
    match gameType {
      case Nim => views := BuildNimViews(history);
      case _ => views := [];
    }
  }

  lemma {:induction false} MoveSumAppend(a: seq<HistoryEntry>, b: seq<HistoryEntry>)
    ensures MoveSum(a + b) == MoveSum(a) + MoveSum(b)
    decreases |b|
  {
    if b == [] {
      assert a + b == a;
    } else {
      var b' := b[..|b| - 1];
      assert (a + b)[..|a + b| - 1] == a + b';
      MoveSumAppend(a, b');
    }
  }

  /** Consecutive views differ by the later entry's move, and the turn flips. */
  lemma ReplayStep(h: seq<HistoryEntry>, views: seq<TaggedGameView>, i: nat)
    requires IsNimReplay(h, views)
    requires i + 1 < |h|
    ensures views[i].nim.remaining - views[i + 1].nim.remaining == MoveAmount(h[i + 1])
    ensures views[i + 1].nim.nextPlayer == 1 - views[i].nim.nextPlayer
  {
    assert h[..i + 2][..i + 1] == h[..i + 1];
  }

  /** An entry without a numeric move leaves the count alone but still passes the turn. */
  lemma NonNumericMoveKeepsRemaining(h: seq<HistoryEntry>, views: seq<TaggedGameView>, i: nat)
    requires IsNimReplay(h, views)
    requires i + 1 < |h|
    requires !(h[i + 1].Entry? && h[i + 1].move.JNum?)
    ensures views[i + 1].nim.remaining == views[i].nim.remaining
    ensures views[i + 1].nim.nextPlayer != views[i].nim.nextPlayer
  {
    ReplayStep(h, views, i);
  }

  /** The last view accounts for every move of the history. */
  lemma ReplayFinal(h: seq<HistoryEntry>, views: seq<TaggedGameView>)
    requires IsNimReplay(h, views)
    requires h != []
    ensures views[|h| - 1] == NimTagged(NimView(StartNimObjects - MoveSum(h), |h| % 2))
  {
    assert h[..|h|] == h;
  }

  /** Replaying a prefix of the history gives the same prefix of views. */
  lemma ReplayPrefix(h: seq<HistoryEntry>, views: seq<TaggedGameView>, k: nat)
    requires IsNimReplay(h, views)
    requires k <= |h|
    ensures IsNimReplay(h[..k], views[..k])
  {
    forall i | 0 <= i < k
      ensures views[..k][i] == ViewAfter(h[..k], i + 1)
    {
      assert h[..k][..i + 1] == h[..i + 1];
    }
  }

  /** Replaying one more entry appends exactly one view, derived from the previous one. */
  lemma {:induction false} ReplayExtend(h: seq<HistoryEntry>, views: seq<TaggedGameView>, e: HistoryEntry)
    requires IsNimReplay(h, views)
    ensures IsNimReplay(h + [e], views + [NimTagged(NimView(
      StartNimObjects - MoveSum(h) - MoveAmount(e), (|h| + 1) % 2))])
  {
    var h' := h + [e];
    var last := NimTagged(NimView(StartNimObjects - MoveSum(h) - MoveAmount(e), (|h| + 1) % 2));
    assert h'[..|h'| - 1] == h;
    assert h'[..|h'|] == h';
    assert last == ViewAfter(h', |h'|);
    forall i | 0 <= i < |h'|
      ensures (views + [last])[i] == ViewAfter(h', i + 1)
    {
      if i < |h| {
        assert h'[..i + 1] == h[..i + 1];
      }
    }
  }

  /** Every replayed view is a Nim view. */
  lemma ReplayIsAllNim(h: seq<HistoryEntry>, views: seq<TaggedGameView>)
    requires IsNimReplay(h, views)
    ensures forall i :: 0 <= i < |views| ==> TagOf(views[i]) == Nim
  {
  }

  /** When every recorded move is a legal Nim move, each step removes one to three objects. */
  lemma {:induction false} LegalMovesBound(h: seq<HistoryEntry>)
    requires forall i :: 0 <= i < |h| ==> h[i].Entry? && ParseNimMove(h[i].move).Some?
    ensures |h| as real <= MoveSum(h) <= 3.0 * |h| as real
    decreases |h|
  {
    if h != [] {
      var e := h[|h| - 1];
      assert 1.0 <= MoveAmount(e) <= 3.0;
      LegalMovesBound(h[..|h| - 1]);
    }
  }
}
