/** Python's enhanced_easter_egg_check: which surprises a successful move unlocks. */
module EasterEggs {

  datatype Trigger = FirstClear | LoveQuote | MegaCombo | Achievement | LuckyNumber

  /** The scores that carry an achievement title. */
  const Milestones: set<int> := {50, 200, 500, 1000, 2000, 5000, 10000}

  /** The move count that carries the lucky-number surprise. */
  const LuckyMoves: int := 77

  /** The triggers a check reports, and the session's first-clear flag after it. */
  datatype EggResult = EggResult(triggers: seq<Trigger>, firstClearDone: bool)

  /** The place of a trigger in the reported list: the if/elif chain first, then the
      achievement, then the lucky number. */
  function Rank(t: Trigger): nat {
    match t
    case FirstClear | LoveQuote | MegaCombo => 0
    case Achievement => 1
    case LuckyNumber => 2
  }

  /** One check, given the first-clear flag, the cells and rounds of the move just made, and the
      score and move count after it. The first three triggers form one if/elif chain, so at most
      one of them fires; the last two are checked on their own, and the list holds the triggers in
      that order. The first check of a session sets the flag. */
  function EasterEggCheck(firstClearDone: bool, cleared: int, combo: int, score: int, moves: int)
    : (r: EggResult)
    ensures r.firstClearDone
    ensures FirstClear in r.triggers <==> !firstClearDone
    ensures LoveQuote in r.triggers <==> firstClearDone && cleared >= 6
    ensures MegaCombo in r.triggers <==> firstClearDone && cleared < 6 && combo >= 3
    ensures Achievement in r.triggers <==> score in Milestones
    ensures LuckyNumber in r.triggers <==> moves == LuckyMoves
    ensures forall i, j :: 0 <= i < j < |r.triggers| ==> r.triggers[i] != r.triggers[j]
    ensures forall i, j :: 0 <= i < j < |r.triggers| ==> Rank(r.triggers[i]) < Rank(r.triggers[j])
  {
    var chain :=
      if !firstClearDone then [FirstClear]
      else if cleared >= 6 then [LoveQuote]
      else if combo >= 3 then [MegaCombo]
      else [];
    var achievement := if score in Milestones then [Achievement] else [];
    var lucky := if moves == LuckyMoves then [LuckyNumber] else [];
    EggResult(chain + achievement + lucky, true)
  }

  /** The facts one check is asked about, in the order of the session's successful moves. */
  datatype Move = Move(cleared: int, combo: int, score: int, moves: int)

  /** All triggers reported by a run of checks, the flag threaded from one to the next. */
  function Replay(firstClearDone: bool, ms: seq<Move>): seq<Trigger>
    decreases |ms|
  {
    if ms == [] then []
    else
      var m := ms[0];
      var r := EasterEggCheck(firstClearDone, m.cleared, m.combo, m.score, m.moves);
      r.triggers + Replay(r.firstClearDone, ms[1..])
  }

  /** The first-clear surprise fires at most once in a session: exactly once over a non-empty
      run that starts with the flag unset, and never once it is set. */
  lemma {:induction false} FirstClearAtMostOnce(firstClearDone: bool, ms: seq<Move>)
    ensures multiset(Replay(firstClearDone, ms))[FirstClear] ==
      if !firstClearDone && |ms| > 0 then 1 else 0
    decreases |ms|
  {
    if ms != [] {
      var m := ms[0];
      var r := EasterEggCheck(firstClearDone, m.cleared, m.combo, m.score, m.moves);
      FirstClearAtMostOnce(r.firstClearDone, ms[1..]);
      assert multiset(r.triggers)[FirstClear] == if firstClearDone then 0 else 1 by {
        if firstClearDone {
          assert FirstClear !in multiset(r.triggers);
        } else {
          DistinctCount(r.triggers, FirstClear);
        }
      }
      assert Replay(firstClearDone, ms) == r.triggers + Replay(r.firstClearDone, ms[1..]);
    }
  }

  /** A trigger that occurs in a repeat-free list occurs once. */
  lemma {:induction false} DistinctCount(s: seq<Trigger>, t: Trigger)
    requires forall i, j :: 0 <= i < j < |s| ==> s[i] != s[j]
    requires t in s
    ensures multiset(s)[t] == 1
  {
    var n := |s| - 1;
    assert s == s[..n] + [s[n]];
    if s[n] == t {
      assert t !in s[..n];
      assert multiset(s[..n])[t] == 0;
    } else {
      assert t in s[..n];
      DistinctCount(s[..n], t);
    }
  }
}
