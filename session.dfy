/** The game session of enhanced_love_bubble.py: checking a swap, the clearing cascade with its
    scoring and special-bubble collection, and the two-click swap protocol. */
module Session {
  import opened Board
  import opened Components
  import opened Scanner
  import opened Gravity
  import opened EasterEggs

  datatype Option<T> = None | Some(value: T)

  /** What a click reports back to the page. */
  datatype Outcome =
    | Selected
    | Deselected
    | NotAdjacent
    | InvalidMatch
    | NoMatch
    | Success(cleared: nat, rounds: nat)

  /** Points needed per level. */
  const LevelStep: nat := 500

  /** The level a score earns: one, plus one per full step of points. */
  function LevelFor(score: nat): (level: nat)
    ensures level >= 1
    ensures (level - 1) * LevelStep <= score < level * LevelStep
  {
    score / LevelStep + 1
  }

  /** A higher score never earns a lower level. */
  lemma LevelForMonotone(s: nat, t: nat)
    requires s <= t
    ensures LevelFor(s) <= LevelFor(t)
  {
  }

  // ---------------------------------------------------------------------------------------------
  // Scoring

  /** Points for one round of the cascade: 20 per cleared cell, 15 per earlier round of the same
      cascade, and 10 per level. */
  function RoundScore(cleared: nat, k: nat, level: nat): nat {
    cleared * 20 + k * 15 + level * 10
  }

  /** Points for a cascade whose rounds cleared `sizes[0]`, `sizes[1]`, ... cells, all scored at
      the same stored level. */
  function CascadeScore(sizes: seq<nat>, level: nat): nat {
    if sizes == [] then 0
    else
      var n := |sizes| - 1;
      CascadeScore(sizes[..n], level) + RoundScore(sizes[n], n, level)
  }

  function Sum(sizes: seq<nat>): nat {
    if sizes == [] then 0 else Sum(sizes[..|sizes| - 1]) + sizes[|sizes| - 1]
  }

  /** 0 + 1 + ... + (n - 1): the round-index bonus units of an n-round cascade. */
  function Tri(n: nat): (t: nat)
    ensures 2 * t == n * (n - 1)
  {
    if n == 0 then 0 else Tri(n - 1) + (n - 1)
  }

  lemma CascadeScoreAppend(sizes: seq<nat>, c: nat, level: nat)
    ensures CascadeScore(sizes + [c], level) == CascadeScore(sizes, level) + RoundScore(c, |sizes|, level)
  {
    assert (sizes + [c])[..|sizes|] == sizes;
  }

  lemma SumAppend(sizes: seq<nat>, c: nat)
    ensures Sum(sizes + [c]) == Sum(sizes) + c
  {
    assert (sizes + [c])[..|sizes|] == sizes;
  }

  /** The points of a cascade in closed form: 20 per cleared cell over all rounds, the round
      bonus 15 * (0 + 1 + ... + (n - 1)), and 10 * level per round. */
  lemma {:induction false} CascadeScoreClosedForm(sizes: seq<nat>, level: nat)
    ensures CascadeScore(sizes, level) == 20 * Sum(sizes) + 15 * Tri(|sizes|) + 10 * level * |sizes|
  {
    if sizes != [] {
      var n := |sizes| - 1;
      CascadeScoreClosedForm(sizes[..n], level);
      MulSucc(10 * level, n);
    }
  }

  lemma MulSucc(a: int, n: int)
    ensures a * (n + 1) == a * n + a
  {
  }

  /** A cascade of n rounds of at least three cells each earns at least 70 points per round at
      level one or more. */
  lemma CascadeScoreLowerBound(sizes: seq<nat>, level: nat)
    requires level >= 1 && forall k :: 0 <= k < |sizes| ==> sizes[k] >= 3
    ensures CascadeScore(sizes, level) >= 70 * |sizes|
  {
    CascadeScoreClosedForm(sizes, level);
    SumAtLeast(sizes);
    LevelBonusAtLeast(level, |sizes|);
  }

  lemma LevelBonusAtLeast(level: nat, n: nat)
    requires level >= 1
    ensures 10 * level * n >= 10 * n
  {
    assert level * n == n + (level - 1) * n;
  }

  lemma {:induction false} SumAtLeast(sizes: seq<nat>)
    requires forall k :: 0 <= k < |sizes| ==> sizes[k] >= 3
    ensures Sum(sizes) >= 3 * |sizes|
  {
    if sizes != [] {
      SumAtLeast(sizes[..|sizes| - 1]);
    }
  }

  // ---------------------------------------------------------------------------------------------
  // Special bubbles

  /** How many of the listed positions hold a bubble of symbol s. */
  function CountSym(g: Grid, ps: seq<Pos>, s: Symbol): nat
    requires IsRect(g)
  {
    if ps == [] then 0
    else
      var p := ps[|ps| - 1];
      CountSym(g, ps[..|ps| - 1], s) + if InBounds(g, p) && At(g, p) == Bubble(s) then 1 else 0
  }

  /** The cells among ps that hold a bubble of symbol s. */
  ghost function CellsOf(g: Grid, ps: seq<Pos>, s: Symbol): set<Pos>
    requires IsRect(g)
  {
    set p | p in Elems(ps) && InBounds(g, p) && At(g, p) == Bubble(s)
  }

  /** Over a list without repeats, CountSym is the number of distinct cells holding s. */
  lemma {:induction false} CountSymCells(g: Grid, ps: seq<Pos>, s: Symbol)
    requires IsRect(g) && NoDup(ps)
    ensures CountSym(g, ps, s) == |CellsOf(g, ps, s)|
  {
    if ps != [] {
      var n := |ps| - 1;
      assert NoDup(ps[..n]);
      CountSymCells(g, ps[..n], s);
      CellsOfLast(g, ps, s);
    }
  }

  /** The cells of a list are those of its prefix and possibly its last position, which is new. */
  lemma CellsOfLast(g: Grid, ps: seq<Pos>, s: Symbol)
    requires IsRect(g) && NoDup(ps) && ps != []
    ensures var p := ps[|ps| - 1];
      var before := CellsOf(g, ps[..|ps| - 1], s);
      p !in before &&
      CellsOf(g, ps, s) == if InBounds(g, p) && At(g, p) == Bubble(s) then before + {p} else before
  {
    var n := |ps| - 1;
    assert Elems(ps) == Elems(ps[..n]) + {ps[n]};
    assert ps[n] !in Elems(ps[..n]);
  }

  /** The counting loop of auto_clear_bubbles: for every removed position whose bubble is one of
      the counted symbols, that symbol's counter goes up by one. Symbols without a counter are
      skipped. */
  method TallySpecials(g: Grid, ps: seq<Pos>, counts: map<Symbol, nat>) returns (r: map<Symbol, nat>)
    requires IsRect(g) && forall i :: 0 <= i < |ps| ==> InBounds(g, ps[i])
    ensures r.Keys == counts.Keys
    ensures forall s :: s in r ==> r[s] == counts[s] + CountSym(g, ps, s)
  {
    r := counts;
    for i := 0 to |ps|
      invariant r.Keys == counts.Keys
      invariant forall s :: s in r ==> r[s] == counts[s] + CountSym(g, ps[..i], s)
    {
      assert ps[..i + 1][..i] == ps[..i];
      var cell := g[ps[i].row][ps[i].col];
      if cell.Bubble? && cell.sym in r {
        r := r[cell.sym := r[cell.sym] + 1];
      }
    }
    assert ps[..|ps|] == ps;
  }

  // ---------------------------------------------------------------------------------------------
  // Checking a swap

  /** Swapping p and q makes the component at p or the one at q three cells or larger. */
  ghost predicate CreatesMatch(g: Grid, p: Pos, q: Pos)
    requires IsRect(g) && InBounds(g, p) && InBounds(g, q)
  {
    var h := SwapCells(g, p, q);
    GroupSize(h, p) >= 3 || GroupSize(h, q) >= 3
  }

  /** A swap that creates a match leaves something for the cascade to clear. */
  lemma MatchIsClearable(g: Grid, p: Pos, q: Pos)
    requires IsRect(g) && InBounds(g, p) && InBounds(g, q) && CreatesMatch(g, p, q)
    ensures ClearableCells(SwapCells(g, p, q)) != {}
  {
    var h := SwapCells(g, p, q);
    InAllCells(h, p);
    InAllCells(h, q);
    if GroupSize(h, p) >= 3 {
      assert p in ClearableCells(h);
    } else {
      assert q in ClearableCells(h);
    }
  }

  /** find_connected_bubbles reports as many cells as GroupSize counts. */
  lemma FoundSize(g: Grid, p: Pos, connected: seq<Pos>)
    requires IsRect(g) && InBounds(g, p)
    requires At(g, p) == Empty ==> connected == []
    requires At(g, p) != Empty ==> NoDup(connected) && Elems(connected) == Component(g, p)
    ensures |connected| == GroupSize(g, p)
  {
    if At(g, p) != Empty {
      DistinctCard(connected);
    }
  }

  /** Python's can_create_match: swaps the two cells, measures the components at both, and swaps
      back. The board ends as it began, and the answer is CreatesMatch. */
  method CanCreateMatch(a: array2<Cell>, p1: Pos, p2: Pos) returns (ok: bool)
    requires 0 <= p1.row < a.Length0 && 0 <= p1.col < a.Length1
    requires 0 <= p2.row < a.Length0 && 0 <= p2.col < a.Length1
    modifies a
    ensures Snapshot(a) == old(Snapshot(a))
    ensures ok == CreatesMatch(old(Snapshot(a)), p1, p2)
  {
    ghost var g := Snapshot(a);
    SwapBubbles(a, p1, p2);
    var h := Snapshot(a);
    var connected1 := FindConnected(h, p1);
    var connected2 := FindConnected(h, p2);
    FoundSize(h, p1, connected1);
    FoundSize(h, p2, connected2);
    ok := |connected1| >= 3 || |connected2| >= 3;
    SwapBubbles(a, p1, p2);
    SwapInvolution(g, p1, p2);
  }

  // ---------------------------------------------------------------------------------------------
  // The cascade

  /** One round of the cascade: the board it started from and the positions it removed. */
  datatype Round = Round(board: Grid, removed: seq<Pos>)

  /** A round removes, once each, exactly the cells in components of three or more, and the
      board settles into `next`. */
  ghost predicate RoundStep(r: Round, next: Grid) {
    IsRect(r.board) && NoDup(r.removed) && Elems(r.removed) == ClearableCells(r.board) &&
    |r.removed| >= 3 && Settles(r.board, r.removed, next)
  }

  /** hist is the sequence of rounds that leads from g0 to g. */
  ghost predicate Cascade(g0: Grid, hist: seq<Round>, g: Grid) {
    if hist == [] then g == g0
    else
      hist[0].board == g0 &&
      (forall k :: 0 <= k < |hist| - 1 ==> RoundStep(hist[k], hist[k + 1].board)) &&
      RoundStep(hist[|hist| - 1], g)
  }

  lemma CascadeAppend(g0: Grid, hist: seq<Round>, r: Round, g: Grid)
    requires Cascade(g0, hist, r.board) && RoundStep(r, g)
    ensures Cascade(g0, hist + [r], g)
  {
    var h := hist + [r];
    if hist != [] {
      forall k | 0 <= k < |h| - 1
        ensures RoundStep(h[k], h[k + 1].board)
      {
        if k < |hist| - 1 {
          assert h[k] == hist[k] && h[k + 1] == hist[k + 1];
        } else {
          assert h[k] == hist[|hist| - 1] && h[k + 1] == r;
        }
      }
    }
  }

  /** Every round of a cascade clears at least three cells. */
  lemma CascadeRoundsClear(g0: Grid, hist: seq<Round>, g: Grid, k: int)
    requires Cascade(g0, hist, g) && 0 <= k < |hist|
    ensures |hist[k].removed| >= 3
  {
    if k < |hist| - 1 {
      assert RoundStep(hist[k], hist[k + 1].board);
    }
  }

  /** The number of cells each round cleared. */
  function Sizes(hist: seq<Round>): (sizes: seq<nat>)
    ensures |sizes| == |hist|
    ensures forall k :: 0 <= k < |hist| ==> sizes[k] == |hist[k].removed|
  {
    seq(|hist|, k requires 0 <= k < |hist| => |hist[k].removed|)
  }

  /** How many bubbles of symbol s the rounds of a cascade removed. */
  ghost function Tally(hist: seq<Round>, s: Symbol): nat {
    if hist == [] then 0
    else
      var r := hist[|hist| - 1];
      Tally(hist[..|hist| - 1], s) + if IsRect(r.board) then CountSym(r.board, r.removed, s) else 0
  }

  lemma SizesAppend(hist: seq<Round>, r: Round)
    ensures Sizes(hist + [r]) == Sizes(hist) + [|r.removed|]
  {
  }

  lemma TallyAppend(hist: seq<Round>, r: Round, s: Symbol)
    requires IsRect(r.board)
    ensures Tally(hist + [r], s) == Tally(hist, s) + CountSym(r.board, r.removed, s)
  {
    assert (hist + [r])[..|hist|] == hist;
  }

  /** In every round a special counter grows by the number of removed cells holding that symbol. */
  lemma TallyRoundCells(r: Round, next: Grid, s: Symbol)
    requires RoundStep(r, next)
    ensures CountSym(r.board, r.removed, s) ==
      |set p | p in ClearableCells(r.board) && At(r.board, p) == Bubble(s)|
  {
    CountSymCells(r.board, r.removed, s);
    forall p | p in ClearableCells(r.board)
      ensures InBounds(r.board, p)
    {
      InAllCells(r.board, p);
    }
    assert CellsOf(r.board, r.removed, s) ==
      set p | p in ClearableCells(r.board) && At(r.board, p) == Bubble(s);
  }

  /** The scan at the top of the loop of auto_clear_bubbles: the clearable groups, joined into
      one list of positions. The list is empty exactly when nothing can be cleared; otherwise it
      holds every clearable cell once, at least three of them, all on the board. */
  method ScanBoard(g: Grid) returns (all: seq<Pos>)
    requires IsRect(g)
    ensures all == [] <==> ClearableCells(g) == {}
    ensures NoDup(all) && Elems(all) == ClearableCells(g)
    ensures all != [] ==> |all| >= 3
    ensures forall i :: 0 <= i < |all| ==> InBounds(g, all[i])
  {
    var groups := FindAllClearableGroups(g);
    all := [];
    for k := 0 to |groups|
      invariant all == Flatten(groups[..k])
    {
      assert groups[..k + 1][..k] == groups[..k];
      all := all + groups[k];
    }
    assert groups[..|groups|] == groups;
    if groups != [] {
      assert IsGroup(g, groups[|groups| - 1]);
    }
    forall i | 0 <= i < |all|
      ensures InBounds(g, all[i])
    {
      assert all[i] in Elems(all);
      InAllCells(g, all[i]);
    }
  }

  // ---------------------------------------------------------------------------------------------
  // The session

  /** The session's bookkeeping, apart from the board and the random source. */
  datatype Stats = Stats(
    score: nat, level: nat, combo: nat, maxCombo: nat, moves: nat,
    selected: Option<Pos>, collected: map<Symbol, nat>,
    firstClearDone: bool, shownEggs: seq<Trigger>, levelUp: bool)

  /** The bookkeeping of a cascade so far, from the session's state s0 when it began to st: the
      cleared cells add up, the score grew by the cascade's points at the stored level, each
      special counter by the bubbles of its symbol removed, and nothing else changed. */
  ghost predicate Accounted(st: Stats, s0: Stats, hist: seq<Round>, totalCleared: nat) {
    totalCleared == Sum(Sizes(hist)) && totalCleared >= 3 * |hist| &&
    st.score == s0.score + CascadeScore(Sizes(hist), st.level) &&
    (forall s :: s in Specials ==>
       s in st.collected && s in s0.collected && st.collected[s] == s0.collected[s] + Tally(hist, s)) &&
    st == s0.(score := st.score, collected := st.collected)
  }

  lemma AccountedStep(st: Stats, st': Stats, s0: Stats, hist: seq<Round>, r: Round, totalCleared: nat)
    requires Accounted(st, s0, hist, totalCleared)
    requires IsRect(r.board) && |r.removed| >= 3
    requires st'.score == st.score + RoundScore(|r.removed|, |hist|, st.level)
    requires forall s :: s in Specials ==>
      s in st'.collected && st'.collected[s] == st.collected[s] + CountSym(r.board, r.removed, s)
    requires st' == st.(score := st'.score, collected := st'.collected)
    ensures Accounted(st', s0, hist + [r], totalCleared + |r.removed|)
  {
    CascadeScoreAppend(Sizes(hist), |r.removed|, st.level);
    SumAppend(Sizes(hist), |r.removed|);
    SizesAppend(hist, r);
    forall s | s in Specials
      ensures Tally(hist + [r], s) == Tally(hist, s) + CountSym(r.board, r.removed, s)
    {
      TallyAppend(hist, r, s);
    }
  }

  /** One more round of the loop of auto_clear_bubbles keeps both its history and its
      bookkeeping up to date. */
  lemma LoopStep(g0: Grid, s0: Stats, hist: seq<Round>, totalCleared: nat, st: Stats, st': Stats,
                 g: Grid, all: seq<Pos>, g': Grid)
    requires Cascade(g0, hist, g) && Accounted(st, s0, hist, totalCleared)
    requires RoundStep(Round(g, all), g')
    requires st'.score == st.score + RoundScore(|all|, |hist|, st.level)
    requires forall s :: s in Specials ==>
      s in st'.collected && st'.collected[s] == st.collected[s] + CountSym(g, all, s)
    requires st' == st.(score := st'.score, collected := st'.collected)
    ensures Cascade(g0, hist + [Round(g, all)], g')
    ensures Accounted(st', s0, hist + [Round(g, all)], totalCleared + |all|)
  {
    AccountedStep(st, st', s0, hist, Round(g, all), totalCleared);
    CascadeAppend(g0, hist, Round(g, all), g');
  }

  /** What a second click on p, adjacent to the selected q, does to a session in state st on
      board g, leaving it in state st' on board g'. A swap that makes no match only drops the
      selection. Otherwise the swap is made, counts as a move, and the clearing cascade runs on
      the swapped board; when it cleared cells, the first-clear flag and the shown surprises
      follow the easter-egg check, and the level rises to the one the new score earns if that
      is higher. */
  ghost predicate SwapEffect(st: Stats, st': Stats, g: Grid, g': Grid, q: Pos, p: Pos, fuel: nat,
                             outcome: Outcome, hist: seq<Round>)
    requires IsRect(g) && InBounds(g, q) && InBounds(g, p)
  {
    if !CreatesMatch(g, q, p) then
      outcome == InvalidMatch && st' == st.(selected := None) && g' == g && hist == []
    else
      var cleared := Sum(Sizes(hist));
      var rounds := |hist|;
      Cascade(SwapCells(g, q, p), hist, g') &&
      (rounds < fuel ==> IsRect(g') && ClearableCells(g') == {}) &&
      st'.selected == None && st'.moves == st.moves + 1 &&
      st'.score == st.score + CascadeScore(Sizes(hist), st.level) &&
      (forall s :: s in Specials ==>
         s in st.collected && s in st'.collected && st'.collected[s] == st.collected[s] + Tally(hist, s)) &&
      st'.combo == st.combo + rounds &&
      st'.maxCombo == (if st'.combo > st.maxCombo then st'.combo else st.maxCombo) &&
      if cleared > 0 then
        var e := EasterEggCheck(st.firstClearDone, cleared, rounds, st'.score, st'.moves);
        var earned := LevelFor(st'.score);
        outcome == Success(cleared, rounds) &&
        st'.firstClearDone == e.firstClearDone &&
        st'.shownEggs == (if e.triggers != [] then e.triggers else st.shownEggs) &&
        st'.level == (if earned > st.level then earned else st.level) &&
        st'.levelUp == (earned > st.level || st.levelUp)
      else
        outcome == NoMatch && st'.firstClearDone == st.firstClearDone &&
        st'.shownEggs == st.shownEggs && st'.level == st.level && st'.levelUp == st.levelUp
  }

  /** The end of a successful swap in handle_bubble_click, from state st to st': when the
      cascade cleared cells, the easter-egg check runs and the level rises to the one the score
      earns if that is higher; otherwise the outcome is NoMatch and nothing changes. */
  ghost predicate Rewarded(st: Stats, st': Stats, cleared: nat, rounds: nat, outcome: Outcome) {
    if cleared > 0 then
      var e := EasterEggCheck(st.firstClearDone, cleared, rounds, st.score, st.moves);
      var earned := LevelFor(st.score);
      outcome == Success(cleared, rounds) &&
      st' == st.(firstClearDone := e.firstClearDone,
                 shownEggs := if e.triggers != [] then e.triggers else st.shownEggs,
                 level := if earned > st.level then earned else st.level,
                 levelUp := earned > st.level || st.levelUp)
    else
      outcome == NoMatch && st' == st
  }

  /** What auto_clear_bubbles does to the bookkeeping, from state st to st': the cascade's points
      at the stored level, its special bubbles, one combo step per round with the best combo
      following, and nothing else. */
  ghost predicate AfterCascade(st: Stats, st': Stats, hist: seq<Round>) {
    st'.score == st.score + CascadeScore(Sizes(hist), st.level) &&
    (forall s :: s in Specials ==>
       s in st.collected && s in st'.collected && st'.collected[s] == st.collected[s] + Tally(hist, s)) &&
    st'.combo == st.combo + |hist| &&
    st'.maxCombo == (if st'.combo > st.maxCombo then st'.combo else st.maxCombo) &&
    st' == st.(score := st'.score, combo := st'.combo, maxCombo := st'.maxCombo, collected := st'.collected)
  }

  /** The swap and the cascade of a successful second click, from state st to mid: one more
      move, no selection, then the cascade. */
  ghost predicate Moved(st: Stats, mid: Stats, hist: seq<Round>) {
    AfterCascade(st.(moves := st.moves + 1, selected := None), mid, hist)
  }

  lemma MovedIntro(st: Stats, st1: Stats, mid: Stats, hist: seq<Round>)
    requires st1 == st.(moves := st.moves + 1, selected := None)
    requires AfterCascade(st1, mid, hist)
    ensures Moved(st, mid, hist)
  {
  }

  /** A move counts once, drops the selection, scores its cascade at the stored level, and leaves
      the level, the first-clear flag, the shown surprises and the level-up flag as they were. */
  lemma MovedKeeps(st: Stats, mid: Stats, hist: seq<Round>)
    requires Moved(st, mid, hist)
    ensures mid.moves == st.moves + 1 && mid.selected == None
    ensures mid.score == st.score + CascadeScore(Sizes(hist), st.level)
    ensures mid.combo == st.combo + |hist|
    ensures mid.level == st.level && mid.firstClearDone == st.firstClearDone
    ensures mid.shownEggs == st.shownEggs && mid.levelUp == st.levelUp
  {
  }

  /** The swap, the cascade and the reward together make up SwapEffect. */
  lemma SwapEffectIntro(st: Stats, mid: Stats, st': Stats, g: Grid, g': Grid, q: Pos, p: Pos,
                        fuel: nat, outcome: Outcome, hist: seq<Round>)
    requires IsRect(g) && InBounds(g, q) && InBounds(g, p) && CreatesMatch(g, q, p)
    requires Cascade(SwapCells(g, q, p), hist, g')
    requires |hist| < fuel ==> IsRect(g') && ClearableCells(g') == {}
    requires Moved(st, mid, hist)
    requires Rewarded(mid, st', Sum(Sizes(hist)), |hist|, outcome)
    ensures SwapEffect(st, st', g, g', q, p, fuel, outcome, hist)
  {
  }

  /** Every round of a cascade clears at least three cells, so together its rounds clear at
      least three cells per round. */
  lemma CascadeSumAtLeast(g0: Grid, hist: seq<Round>, g: Grid)
    requires Cascade(g0, hist, g)
    ensures Sum(Sizes(hist)) >= 3 * |hist|
  {
    var sizes := Sizes(hist);
    forall k | 0 <= k < |sizes|
      ensures sizes[k] >= 3
    {
      CascadeRoundsClear(g0, hist, g, k);
    }
    SumAtLeast(sizes);
  }

  /** A second click keeps the session's counters consistent: the selection is dropped, the
      level is still the one the score earns (a cascade that cleared nothing had no round and
      scored nothing), and the best combo still equals the combo. Moreover, with fuel for at
      least one round, a swap that passed the check always clears something: the swapped board
      has a clearable cell, so the cascade has a round, which removes at least three cells, and
      NoMatch is never the outcome. */
  lemma SwapSound(st: Stats, st': Stats, g: Grid, g': Grid, q: Pos, p: Pos, fuel: nat,
                  outcome: Outcome, hist: seq<Round>)
    requires IsRect(g) && InBounds(g, q) && InBounds(g, p)
    requires SwapEffect(st, st', g, g', q, p, fuel, outcome, hist)
    requires st.level == LevelFor(st.score) && st.maxCombo == st.combo
    ensures st'.selected == None
    ensures st'.level == LevelFor(st'.score) && st'.maxCombo == st'.combo
    ensures fuel > 0 ==> outcome != NoMatch
  {
    if CreatesMatch(g, q, p) {
      CascadeSumAtLeast(SwapCells(g, q, p), hist, g');
      LevelForMonotone(st.score, st'.score);
      if fuel > 0 {
        assert hist != [] by {
          MatchIsClearable(g, q, p);
        }
      }
    }
  }

  /** The state init_enhanced_game sets up, together with the 7 x 6 board and the random source
      that refills it. */
  class Game {
    const grid: array2<Cell>
    const rng: SymbolSource
    var score: nat
    var level: nat
    var combo: nat
    var maxCombo: nat
    var moves: nat
    var selected: Option<Pos>
    var collected: map<Symbol, nat>
    var firstClearDone: bool
    var shownEggs: seq<Trigger>
    var levelUp: bool

    function Info(): Stats
      reads this
    {
      Stats(score, level, combo, maxCombo, moves, selected, collected, firstClearDone, shownEggs, levelUp)
    }

    /** The board has the session's shape and no empty cell, and there is a counter for each
        special symbol. */
    ghost predicate BoardOk()
      reads this, grid
    {
      grid.Length0 == Rows && grid.Length1 == Cols && Full(Snapshot(grid)) &&
      collected.Keys == Specials
    }

    /** Between clicks, moreover: a selection lies on the board, the level is the one the score
        earns, and since the combo counter is never reset, the best combo is the combo itself. */
    ghost predicate Valid()
      reads this, grid
    {
      BoardOk() &&
      (selected.Some? ==> InBounds(Snapshot(grid), selected.value)) &&
      level == LevelFor(score) && maxCombo == combo
    }

    /** init_enhanced_game for a new session: a fresh random board and every counter at its
        starting value. */
    constructor (rng: SymbolSource)
      modifies rng
      ensures Valid() && this.rng == rng && fresh(grid)
      ensures Info() == Stats(0, 1, 0, 0, 0, None, map s | s in Specials :: 0, false, [], false)
    {
      var a := GenerateGrid(Rows, Cols, rng);
      grid := a;
      this.rng := rng;
      score, level, combo, maxCombo, moves := 0, 1, 0, 0, 0;
      selected := None;
      collected := map s | s in Specials :: 0;
      firstClearDone, shownEggs, levelUp := false, [], false;
    }

    /** One round of auto_clear_bubbles on board g, whose scan found the cells `all`: score the
        round as round k at the stored level, count the special bubbles, and remove the cells. */
    method ClearRound(ghost g: Grid, all: seq<Pos>, k: nat) returns (cleared: nat)
      requires BoardOk() && Snapshot(grid) == g
      requires NoDup(all) && Elems(all) == ClearableCells(g) && |all| >= 3
      requires forall i :: 0 <= i < |all| ==> InBounds(g, all[i])
      modifies this, grid, rng
      ensures BoardOk()
      ensures RoundStep(Round(g, all), Snapshot(grid))
      ensures cleared == |all|
      ensures score == old(score) + RoundScore(cleared, k, level)
      ensures forall s :: s in Specials ==> collected[s] == old(collected)[s] + CountSym(g, all, s)
      ensures Info() == old(Info()).(score := score, collected := collected)
    {
      cleared := |all|;
      var points := score + RoundScore(cleared, k, level);
      var counts := TallySpecials(Snapshot(grid), all, collected);
      RemoveBubbles(grid, all, rng);
      score, collected := points, counts;
    }

    /** One pass of the loop of auto_clear_bubbles that found the cells `all` on board g: the
        round extends the cascade from g0 and its bookkeeping since state s0. */
    method ClearStep(ghost g0: Grid, ghost s0: Stats, ghost hist: seq<Round>, ghost totalCleared: nat,
                     ghost g: Grid, all: seq<Pos>, k: nat) returns (cleared: nat)
      requires BoardOk() && Snapshot(grid) == g && k == |hist|
      requires Cascade(g0, hist, g) && Accounted(Info(), s0, hist, totalCleared)
      requires NoDup(all) && Elems(all) == ClearableCells(g) && |all| >= 3
      requires forall i :: 0 <= i < |all| ==> InBounds(g, all[i])
      modifies this, grid, rng
      ensures BoardOk() && cleared == |all|
      ensures Cascade(g0, hist + [Round(g, all)], Snapshot(grid))
      ensures Accounted(Info(), s0, hist + [Round(g, all)], totalCleared + cleared)
    {
      ghost var st := Info();
      cleared := ClearRound(g, all, k);
      LoopStep(g0, s0, hist, totalCleared, st, Info(), g, all, Snapshot(grid));
    }

    /** The loop of auto_clear_bubbles, with at most `fuel` rounds: while the board has groups,
        score the round at the stored level, count the special bubbles, and remove the cells.
        `hist` records the rounds; `settled` says the loop stopped because no group was left. */
    method ClearLoop(fuel: nat) returns (totalCleared: nat, rounds: nat, settled: bool, ghost hist: seq<Round>)
      requires BoardOk()
      modifies this, grid, rng
      ensures BoardOk()
      ensures Cascade(old(Snapshot(grid)), hist, Snapshot(grid)) && |hist| == rounds
      ensures settled ==> ClearableCells(Snapshot(grid)) == {}
      ensures !settled ==> rounds == fuel
      ensures Accounted(Info(), old(Info()), hist, totalCleared)
    {
      ghost var g0 := Snapshot(grid);
      ghost var s0 := Info();
      ghost var g, st := g0, s0;
      totalCleared, rounds, settled := 0, 0, false;
      hist := [];
      while !settled && rounds < fuel
        invariant BoardOk() && g == Snapshot(grid) && st == Info()
        invariant Cascade(g0, hist, g) && |hist| == rounds <= fuel
        invariant settled ==> ClearableCells(g) == {}
        invariant Accounted(st, s0, hist, totalCleared)
        decreases fuel - rounds, if settled then 0 else 1
      {
        var all := ScanBoard(Snapshot(grid));
        if all == [] {
          settled := true;
        } else {
          var cleared := ClearStep(g0, s0, hist, totalCleared, g, all, rounds);
          totalCleared := totalCleared + cleared;
          hist := hist + [Round(g, all)];
          rounds := rounds + 1;
          g, st := Snapshot(grid), Info();
        }
      }
    }

    /** Python's auto_clear_bubbles, with at most `fuel` rounds: the clearing loop, after which
        the combo counter grows by the number of rounds and the best combo follows it. */
    method AutoClear(fuel: nat) returns (totalCleared: nat, rounds: nat, settled: bool, ghost hist: seq<Round>)
      requires BoardOk()
      modifies this, grid, rng
      ensures BoardOk()
      ensures Cascade(old(Snapshot(grid)), hist, Snapshot(grid)) && |hist| == rounds
      ensures settled ==> ClearableCells(Snapshot(grid)) == {}
      ensures !settled ==> rounds == fuel
      ensures fuel > 0 && ClearableCells(old(Snapshot(grid))) != {} ==> rounds > 0
      ensures totalCleared == Sum(Sizes(hist)) && totalCleared >= 3 * rounds
      ensures AfterCascade(old(Info()), Info(), hist)
    {
      totalCleared, rounds, settled, hist := ClearLoop(fuel);
      ghost var mid := Info();
      combo := combo + rounds;
      if combo > maxCombo {
        maxCombo := combo;
      }
      assert Info() == mid.(combo := combo, maxCombo := maxCombo);
    }

    /** The end of the swap branch of handle_bubble_click, once the cascade has run. */
    method Reward(cleared: nat, rounds: nat) returns (outcome: Outcome)
      modifies this
      ensures Rewarded(old(Info()), Info(), cleared, rounds, outcome)
    {
      if cleared > 0 {
        var e := EasterEggCheck(firstClearDone, cleared, rounds, score, moves);
        firstClearDone := e.firstClearDone;
        if e.triggers != [] {
          shownEggs := e.triggers;
        }
        var earned := LevelFor(score);
        if earned > level {
          level := earned;
          levelUp := true;
        }
        outcome := Success(cleared, rounds);
      } else {
        outcome := NoMatch;
      }
    }

    /** The swap itself: the two cells trade places, the move is counted and the selection is
        dropped. */
    method MakeSwap(q: Pos, p: Pos)
      requires BoardOk() && InBounds(Snapshot(grid), q) && InBounds(Snapshot(grid), p)
      modifies this, grid
      ensures BoardOk()
      ensures Snapshot(grid) == SwapCells(old(Snapshot(grid)), q, p)
      ensures Info() == old(Info()).(moves := old(moves) + 1, selected := None)
    {
      ghost var g := Snapshot(grid);
      SwapBubbles(grid, q, p);
      SwapFull(g, q, p);
      moves := moves + 1;
      selected := None;
    }

    /** The swap branch of handle_bubble_click once the swap has passed the check: make the
        swap, count the move, drop the selection and run the cascade. */
    method SwapAndClear(q: Pos, p: Pos, fuel: nat) returns (cleared: nat, rounds: nat, ghost hist: seq<Round>)
      requires BoardOk() && InBounds(Snapshot(grid), q) && InBounds(Snapshot(grid), p)
      requires CreatesMatch(Snapshot(grid), q, p)
      modifies this, grid, rng
      ensures BoardOk()
      ensures Cascade(SwapCells(old(Snapshot(grid)), q, p), hist, Snapshot(grid))
      ensures |hist| < fuel ==> ClearableCells(Snapshot(grid)) == {}
      ensures cleared == Sum(Sizes(hist)) && rounds == |hist| && cleared >= 3 * rounds
      ensures fuel > 0 ==> rounds > 0
      ensures Moved(old(Info()), Info(), hist)
    {
      MakeSwap(q, p);
      MatchIsClearable(old(Snapshot(grid)), q, p);
      ghost var st1 := Info();
      var settled;
      cleared, rounds, settled, hist := AutoClear(fuel);
      MovedIntro(old(Info()), st1, Info(), hist);
    }

    /** A swap that passed the check: swap, cascade, and reward. */
    method CommitSwap(q: Pos, p: Pos, fuel: nat) returns (outcome: Outcome, ghost hist: seq<Round>)
      requires BoardOk() && InBounds(Snapshot(grid), q) && InBounds(Snapshot(grid), p)
      requires CreatesMatch(Snapshot(grid), q, p)
      modifies this, grid, rng
      ensures BoardOk()
      ensures SwapEffect(old(Info()), Info(), old(Snapshot(grid)), Snapshot(grid), q, p, fuel, outcome, hist)
    {
      var cleared, rounds;
      cleared, rounds, hist := SwapAndClear(q, p, fuel);
      ghost var mid := Info();
      outcome := Reward(cleared, rounds);
      SwapEffectIntro(old(Info()), mid, Info(), old(Snapshot(grid)), Snapshot(grid), q, p, fuel, outcome, hist);
    }

    /** The swap branch of handle_bubble_click: q is selected and p is one of its neighbours. */
    method TrySwap(q: Pos, p: Pos, fuel: nat) returns (outcome: Outcome, ghost hist: seq<Round>)
      requires Valid() && selected == Some(q) && Adjacent(q, p) && InBounds(Snapshot(grid), p)
      modifies this, grid, rng
      ensures Valid()
      ensures SwapEffect(old(Info()), Info(), old(Snapshot(grid)), Snapshot(grid), q, p, fuel, outcome, hist)
      ensures fuel > 0 ==> outcome != NoMatch
    {
      var ok := CanCreateMatch(grid, q, p);
      if ok {
        outcome, hist := CommitSwap(q, p, fuel);
      } else {
        selected := None;
        outcome, hist := InvalidMatch, [];
      }
      SwapSound(old(Info()), Info(), old(Snapshot(grid)), Snapshot(grid), q, p, fuel, outcome, hist);
    }

    /** Python's handle_bubble_click. With nothing selected, a click selects its cell; a click on
        the selected cell deselects it; a click on any other cell drops the selection and, when
        the two cells are neighbours, tries the swap. A cell that is not a neighbour changes
        nothing else. With fuel for at least one round a swap that passed the check always
        clears something, so NoMatch is never reported. */
    method HandleClick(p: Pos, fuel: nat) returns (outcome: Outcome, ghost hist: seq<Round>)
      requires Valid() && InBounds(Snapshot(grid), p)
      modifies this, grid, rng
      ensures Valid()
      ensures old(selected) == None ==>
        outcome == Selected && Info() == old(Info()).(selected := Some(p)) && Snapshot(grid) == old(Snapshot(grid))
      ensures old(selected) == Some(p) ==>
        outcome == Deselected && Info() == old(Info()).(selected := None) && Snapshot(grid) == old(Snapshot(grid))
      ensures old(selected).Some? && old(selected) != Some(p) && !Adjacent(old(selected).value, p) ==>
        outcome == NotAdjacent && Info() == old(Info()).(selected := None) && Snapshot(grid) == old(Snapshot(grid))
      ensures old(selected).Some? && old(selected) != Some(p) && Adjacent(old(selected).value, p) ==>
        SwapEffect(old(Info()), Info(), old(Snapshot(grid)), Snapshot(grid), old(selected).value, p, fuel, outcome, hist)
      ensures fuel > 0 ==> outcome != NoMatch
    {
      hist := [];
      if selected == None {
        selected := Some(p);
        outcome := Selected;
      } else if selected == Some(p) {
        selected := None;
        outcome := Deselected;
      } else {
        var q := selected.value;
        if Adjacent(q, p) {
          outcome, hist := TrySwap(q, p, fuel);
        } else {
          selected := None;
          outcome := NotAdjacent;
        }
      }
    }
  }
}
