/** The score table of app_simple.py: per player and per game time a score and a payment flag,
    and the sorted list of game times that make up the table's columns. */
module ScoreTable {

  /** Python's string order: code point by code point, a proper prefix first. */
  predicate LexLess(a: string, b: string)
    decreases |a|
  {
    if |a| == 0 then |b| > 0
    else |b| > 0 && (a[0] < b[0] || (a[0] == b[0] && LexLess(a[1..], b[1..])))
  }

  lemma {:induction false} LexLessIrreflexive(a: string)
    ensures !LexLess(a, a)
    decreases |a|
  {
    if |a| > 0 {
      LexLessIrreflexive(a[1..]);
    }
  }

  lemma {:induction false} LexLessTransitive(a: string, b: string, c: string)
    requires LexLess(a, b) && LexLess(b, c)
    ensures LexLess(a, c)
    decreases |a|
  {
    if |a| > 0 && a[0] == b[0] && b[0] == c[0] {
      LexLessTransitive(a[1..], b[1..], c[1..]);
    }
  }

  /** Any two different strings are ordered one way or the other. */
  lemma {:induction false} LexLessTotal(a: string, b: string)
    requires a != b
    ensures LexLess(a, b) || LexLess(b, a)
    decreases |a|
  {
    if |a| > 0 && |b| > 0 && a[0] == b[0] {
      assert a == [a[0]] + a[1..] && b == [b[0]] + b[1..];
      LexLessTotal(a[1..], b[1..]);
    }
  }

  /** Strictly increasing, hence without repeats. */
  predicate Sorted(s: seq<string>) {
    forall i, j :: 0 <= i < j < |s| ==> LexLess(s[i], s[j])
  }

  /** The sorted list with d put in its place: what `append` followed by `sort` gives. */
  function SortedInsert(s: seq<string>, d: string): (r: seq<string>)
    requires Sorted(s) && d !in s
    ensures Sorted(r) && |r| == |s| + 1
    ensures forall x :: x in r <==> x in s || x == d
  {
    if s == [] then [d]
    else if LexLess(d, s[0]) then
      forall j | 0 <= j < |s| ensures LexLess(d, s[j]) {
        if j > 0 {
          LexLessTransitive(d, s[0], s[j]);
        }
      }
      [d] + s
    else
      LexLessTotal(d, s[0]);
      var rest := SortedInsert(s[1..], d);
      assert forall x :: x in s[1..] <==> x in s && x != s[0] by {
        assert s == [s[0]] + s[1..];
        forall x | x in s && x != s[0] ensures x in s[1..] { }
        forall x | x in s[1..] ensures x != s[0] {
          var k :| 0 <= k < |s[1..]| && s[1..][k] == x;
          assert LexLess(s[0], s[k + 1]);
          LexLessIrreflexive(x);
        }
      }
      assert forall j :: 0 <= j < |rest| ==> LexLess(s[0], rest[j]) by {
        forall j | 0 <= j < |rest| ensures LexLess(s[0], rest[j]) {
          if rest[j] != d {
            assert rest[j] in rest;
            assert rest[j] in s[1..];
            var k :| 0 <= k < |s[1..]| && s[1..][k] == rest[j];
            assert LexLess(s[0], s[k + 1]);
          }
        }
      }
      [s[0]] + rest
  }

  /** A strictly increasing list is determined by its elements, so SortedInsert is the only
      result `sort` could give. */
  lemma {:induction false} SortedUnique(a: seq<string>, b: seq<string>)
    requires Sorted(a) && Sorted(b)
    requires forall x :: x in a <==> x in b
    ensures a == b
    decreases |a|
  {
    EmptyTogether(a, b);
    if a != [] {
      if a[0] != b[0] {
        assert a[0] in a && b[0] in b;
        var i :| 0 <= i < |b| && b[i] == a[0];
        var j :| 0 <= j < |a| && a[j] == b[0];
        assert i > 0 && j > 0;
        assert LexLess(b[0], a[0]) && LexLess(a[0], b[0]);
        LexLessTransitive(a[0], b[0], a[0]);
        LexLessIrreflexive(a[0]);
      }
      forall x ensures x in a[1..] <==> x in b[1..] {
        SortedTail(a, x);
        SortedTail(b, x);
      }
      SortedUnique(a[1..], b[1..]);
      assert a == [a[0]] + a[1..] && b == [b[0]] + b[1..];
    }
  }

  lemma EmptyTogether(a: seq<string>, b: seq<string>)
    requires forall x :: x in a <==> x in b
    ensures a == [] <==> b == []
  {
    if a != [] {
      assert a[0] in b;
    }
    if b != [] {
      assert b[0] in a;
    }
  }

  lemma SortedTail(s: seq<string>, x: string)
    requires Sorted(s) && s != []
    ensures x in s[1..] <==> x in s && x != s[0]
  {
    assert s == [s[0]] + s[1..];
    if x in s[1..] {
      var k :| 0 <= k < |s[1..]| && s[1..][k] == x;
      assert LexLess(s[0], s[k + 1]);
      LexLessIrreflexive(x);
    }
  }

  /** Python's list.remove: drops the first occurrence of d. */
  function RemoveFirst(s: seq<string>, d: string): (r: seq<string>)
    requires d in s
    ensures |r| == |s| - 1
    ensures forall x :: x in r ==> x in s
    decreases |s|
  {
    if s[0] == d then s[1..] else [s[0]] + RemoveFirst(s[1..], d)
  }

  /** Removing a time from a sorted list leaves it sorted and exactly without that time. */
  lemma {:induction false} RemoveFirstSorted(s: seq<string>, d: string)
    requires Sorted(s) && d in s
    ensures Sorted(RemoveFirst(s, d))
    ensures forall x :: x in RemoveFirst(s, d) <==> x in s && x != d
    decreases |s|
  {
    SortedTail(s, d);
    forall x ensures x in s[1..] <==> x in s && x != s[0] {
      SortedTail(s, x);
    }
    if s[0] != d {
      RemoveFirstSorted(s[1..], d);
      var r := RemoveFirst(s, d);
      assert r == [s[0]] + RemoveFirst(s[1..], d);
      forall j | 0 < j < |r| ensures LexLess(r[0], r[j]) {
        assert r[j] in s[1..];
        var k :| 0 <= k < |s[1..]| && s[1..][k] == r[j];
        assert LexLess(s[0], s[k + 1]);
      }
    }
  }

  // ---------------------------------------------------------------------------------------------
  // Row totals

  /** A player's score for a time, 0 when the player has none (`dict.get(date, 0)`). */
  function ScoreAt(row: map<string, int>, d: string): int {
    if d in row then row[d] else 0
  }

  /** A player's total over the listed times. */
  function DateSum(dates: seq<string>, row: map<string, int>): int {
    if dates == [] then 0
    else DateSum(dates[..|dates| - 1], row) + ScoreAt(row, dates[|dates| - 1])
  }

  lemma DateSumAppend(dates: seq<string>, d: string, row: map<string, int>)
    ensures DateSum(dates + [d], row) == DateSum(dates, row) + ScoreAt(row, d)
  {
    assert (dates + [d])[..|dates|] == dates;
  }

  lemma {:induction false} DateSumCons(d: string, dates: seq<string>, row: map<string, int>)
    ensures DateSum([d] + dates, row) == ScoreAt(row, d) + DateSum(dates, row)
    decreases |dates|
  {
    if dates != [] {
      var n := |dates| - 1;
      assert ([d] + dates)[..|dates|] == [d] + dates[..n];
      DateSumCons(d, dates[..n], row);
    }
  }

  /** Only the times listed count towards the total. */
  lemma {:induction false} DateSumIgnores(dates: seq<string>, row: map<string, int>, d: string, v: int)
    requires d !in dates
    ensures DateSum(dates, row[d := v]) == DateSum(dates, row)
    ensures DateSum(dates, row - {d}) == DateSum(dates, row)
    decreases |dates|
  {
    if dates != [] {
      DateSumIgnores(dates[..|dates| - 1], row, d, v);
      assert dates[|dates| - 1] in dates;
    }
  }

  /** Recording a score v for a new time adds v to the player's total. */
  lemma {:induction false} DateSumInsert(dates: seq<string>, row: map<string, int>, d: string, v: int)
    requires Sorted(dates) && d !in dates
    ensures DateSum(SortedInsert(dates, d), row[d := v]) == DateSum(dates, row) + v
    decreases |dates|
  {
    if dates == [] {
      assert DateSum([d], row[d := v]) == DateSum([], row[d := v]) + v;
    } else if LexLess(d, dates[0]) {
      DateSumCons(d, dates, row[d := v]);
      DateSumIgnores(dates, row, d, v);
    } else {
      assert dates == [dates[0]] + dates[1..];
      var rest := SortedInsert(dates[1..], d);
      DateSumInsert(dates[1..], row, d, v);
      DateSumCons(dates[0], rest, row[d := v]);
      DateSumCons(dates[0], dates[1..], row);
      assert dates[0] != d;
    }
  }

  /** Recording a score v at a time already listed, for a player without one there, also adds
      v to the total. */
  lemma {:induction false} DateSumRecord(dates: seq<string>, row: map<string, int>, d: string, v: int)
    requires Sorted(dates) && d in dates && d !in row
    ensures DateSum(dates, row[d := v]) == DateSum(dates, row) + v
    decreases |dates|
  {
    var n := |dates| - 1;
    var last := dates[n];
    assert Sorted(dates[..n]);
    if last == d {
      assert d !in dates[..n] by {
        if d in dates[..n] {
          var k :| 0 <= k < n && dates[k] == d;
          assert LexLess(dates[k], dates[n]);
          LexLessIrreflexive(d);
        }
      }
      DateSumIgnores(dates[..n], row, d, v);
    } else {
      assert d in dates[..n] by {
        var k :| 0 <= k < |dates| && dates[k] == d;
        assert k < n;
      }
      DateSumRecord(dates[..n], row, d, v);
    }
  }

  /** Deleting a listed time takes that time's score out of every total. */
  lemma {:induction false} DateSumRemove(dates: seq<string>, row: map<string, int>, d: string)
    requires Sorted(dates) && d in dates
    ensures DateSum(RemoveFirst(dates, d), row - {d}) == DateSum(dates, row) - ScoreAt(row, d)
    decreases |dates|
  {
    SortedTail(dates, d);
    DateSumCons(dates[0], dates[1..], row);
    assert dates == [dates[0]] + dates[1..];
    if dates[0] == d {
      DateSumIgnores(dates[1..], row, d, 0);
    } else {
      forall x ensures x in dates[1..] <==> x in dates && x != dates[0] {
        SortedTail(dates, x);
      }
      DateSumRemove(dates[1..], row, d);
      DateSumCons(dates[0], RemoveFirst(dates[1..], d), row - {d});
    }
  }

  /** Totals see a row only through ScoreAt. */
  lemma {:induction false} DateSumSameScores(dates: seq<string>, r1: map<string, int>, r2: map<string, int>)
    requires forall d :: ScoreAt(r1, d) == ScoreAt(r2, d)
    ensures DateSum(dates, r1) == DateSum(dates, r2)
    decreases |dates|
  {
    if dates != [] {
      DateSumSameScores(dates[..|dates| - 1], r1, r2);
    }
  }

  // ---------------------------------------------------------------------------------------------
  // The store

  /** One validated (player, score) pair read off a result screenshot. */
  datatype Entry = Entry(name: string, score: int)

  function Names(es: seq<Entry>): set<string> {
    set i | 0 <= i < |es| :: es[i].name
  }

  /** The score of the first entry for player n: later entries for the same player and time are
      ignored. */
  function FirstScore(es: seq<Entry>, n: string): int
    requires n in Names(es)
  {
    var k := |es| - 1;
    if n in Names(es[..k]) then FirstScore(es[..k], n) else es[k].score
  }

  lemma NamesAppend(es: seq<Entry>, e: Entry)
    ensures Names(es + [e]) == Names(es) + {e.name}
  {
    var es' := es + [e];
    forall x | x in Names(es')
      ensures x in Names(es) + {e.name}
    {
      var i :| 0 <= i < |es'| && es'[i].name == x;
      if i < |es| {
        assert es[i].name == x;
      }
    }
    forall x | x in Names(es) + {e.name}
      ensures x in Names(es')
    {
      if x in Names(es) {
        var i :| 0 <= i < |es| && es[i].name == x;
        assert es'[i].name == x;
      } else {
        assert es'[|es|].name == x;
      }
    }
  }

  function Row<V>(m: map<string, map<string, V>>, n: string): map<string, V> {
    if n in m then m[n] else map[]
  }

  /** The shape the store keeps: sorted times without repeats, a payment row for every player
      with a flag for exactly the times the player has a score for, and only listed times. */
  ghost predicate StoreOk(players: map<string, map<string, int>>, payment: map<string, map<string, bool>>,
                          dates: seq<string>) {
    Sorted(dates) && payment.Keys == players.Keys &&
    forall n :: n in players ==>
      payment[n].Keys == players[n].Keys && forall d :: d in players[n] ==> d in dates
  }

  /** Player n's scores after recording `es` at `date` on top of players0: a player who had no
      score at that time gets the first one given for it. */
  ghost function ScoreRow(players0: map<string, map<string, int>>, date: string, es: seq<Entry>, n: string)
    : map<string, int>
  {
    if n in Names(es) && date !in Row(players0, n) then Row(players0, n)[date := FirstScore(es, n)]
    else Row(players0, n)
  }

  /** The matching payment flags: a newly recorded score comes with an unpaid flag. */
  ghost function FlagRow(players0: map<string, map<string, int>>, payment0: map<string, map<string, bool>>,
                         date: string, es: seq<Entry>, n: string): map<string, bool>
  {
    if n in Names(es) && date !in Row(players0, n) then Row(payment0, n)[date := false]
    else Row(payment0, n)
  }

  /** After recording `es` at `date` on top of players0, every named player has a row, and each
      row is the player's ScoreRow. */
  ghost predicate RecordedScores(players0: map<string, map<string, int>>, players: map<string, map<string, int>>,
                                 date: string, es: seq<Entry>) {
    players.Keys == players0.Keys + Names(es) &&
    forall n :: n in players ==> players[n] == ScoreRow(players0, date, es, n)
  }

  ghost predicate RecordedFlags(players0: map<string, map<string, int>>, payment0: map<string, map<string, bool>>,
                                payment: map<string, map<string, bool>>, date: string, es: seq<Entry>) {
    payment.Keys == payment0.Keys + Names(es) &&
    forall n :: n in payment ==> payment[n] == FlagRow(players0, payment0, date, es, n)
  }

  /** One more entry e changes only e's rows, the way the loop body does. */
  lemma ScoreRowStep(players0: map<string, map<string, int>>, date: string, es: seq<Entry>, e: Entry, n: string)
    ensures ScoreRow(players0, date, es + [e], n) ==
      if n != e.name then ScoreRow(players0, date, es, n)
      else
        var row := ScoreRow(players0, date, es, n);
        if date in row then row else row[date := e.score]
  {
    NamesAppend(es, e);
    assert (es + [e])[..|es|] == es;
  }

  lemma FlagRowStep(players0: map<string, map<string, int>>, payment0: map<string, map<string, bool>>,
                    date: string, es: seq<Entry>, e: Entry, n: string)
    ensures FlagRow(players0, payment0, date, es + [e], n) ==
      if n != e.name then FlagRow(players0, payment0, date, es, n)
      else
        var row := FlagRow(players0, payment0, date, es, n);
        if date in ScoreRow(players0, date, es, n) then row else row[date := false]
  {
    NamesAppend(es, e);
  }

  /** The store after the loop body of update_game_data for one entry e. */
  function AddScore(players: map<string, map<string, int>>, date: string, e: Entry): map<string, map<string, int>> {
    var row := Row(players, e.name);
    players[e.name := if date in row then row else row[date := e.score]]
  }

  function AddFlag(payment: map<string, map<string, bool>>, players: map<string, map<string, int>>,
                   date: string, e: Entry): map<string, map<string, bool>> {
    var row := Row(payment, e.name);
    payment[e.name := if date in Row(players, e.name) then row else row[date := false]]
  }

  lemma AddKeepsStore(players: map<string, map<string, int>>, payment: map<string, map<string, bool>>,
                      dates: seq<string>, date: string, e: Entry)
    requires StoreOk(players, payment, dates) && date in dates
    ensures StoreOk(AddScore(players, date, e), AddFlag(payment, players, date, e), dates)
  {
  }

  lemma AddScoreStep(players0: map<string, map<string, int>>, players: map<string, map<string, int>>,
                     date: string, es: seq<Entry>, e: Entry)
    requires RecordedScores(players0, players, date, es)
    ensures RecordedScores(players0, AddScore(players, date, e), date, es + [e])
  {
    NamesAppend(es, e);
    var players' := AddScore(players, date, e);
    assert Row(players, e.name) == ScoreRow(players0, date, es, e.name);
    forall n | n in players'
      ensures players'[n] == ScoreRow(players0, date, es + [e], n)
    {
      ScoreRowStep(players0, date, es, e, n);
    }
  }

  lemma AddFlagStep(players0: map<string, map<string, int>>, payment0: map<string, map<string, bool>>,
                    players: map<string, map<string, int>>, payment: map<string, map<string, bool>>,
                    date: string, es: seq<Entry>, e: Entry)
    requires RecordedScores(players0, players, date, es)
    requires RecordedFlags(players0, payment0, payment, date, es)
    ensures RecordedFlags(players0, payment0, AddFlag(payment, players, date, e), date, es + [e])
  {
    NamesAppend(es, e);
    var payment' := AddFlag(payment, players, date, e);
    assert Row(players, e.name) == ScoreRow(players0, date, es, e.name);
    assert Row(payment, e.name) == FlagRow(players0, payment0, date, es, e.name);
    forall n | n in payment'
      ensures payment'[n] == FlagRow(players0, payment0, date, es + [e], n)
    {
      FlagRowStep(players0, payment0, date, es, e, n);
    }
  }

  /** What update_game_data does to the total column: a player who had no score at the
      screenshot's time gains the first score given for it, every other total stays. */
  lemma RecordTotals(players0: map<string, map<string, int>>, payment0: map<string, map<string, bool>>,
                     dates0: seq<string>, players: map<string, map<string, int>>,
                     date: string, entries: seq<Entry>, n: string)
    requires StoreOk(players0, payment0, dates0)
    requires RecordedScores(players0, players, date, entries)
    requires n in players
    ensures var dates := if date in dates0 then dates0 else SortedInsert(dates0, date);
      DateSum(dates, players[n]) ==
        DateSum(dates0, Row(players0, n)) +
        (if n in Names(entries) && date !in Row(players0, n) then FirstScore(entries, n) else 0)
  {
    var row0 := Row(players0, n);
    if date in dates0 {
      if n in Names(entries) && date !in row0 {
        DateSumRecord(dates0, row0, date, FirstScore(entries, n));
      }
    } else {
      assert date !in row0;
      if n in Names(entries) {
        DateSumInsert(dates0, row0, date, FirstScore(entries, n));
      } else {
        DateSumInsert(dates0, row0, date, 0);
        DateSumSameScores(SortedInsert(dates0, date), row0[date := 0], row0);
      }
    }
  }

  /** The loop of update_game_data over the players of one screenshot taken at `date`. */
  method RecordEntries(players0: map<string, map<string, int>>, payment0: map<string, map<string, bool>>,
                       dates: seq<string>, date: string, entries: seq<Entry>)
    returns (players: map<string, map<string, int>>, payment: map<string, map<string, bool>>)
    requires StoreOk(players0, payment0, dates) && date in dates
    ensures StoreOk(players, payment, dates)
    ensures RecordedScores(players0, players, date, entries)
    ensures RecordedFlags(players0, payment0, payment, date, entries)
  {
    players, payment := players0, payment0;
    for i := 0 to |entries|
      invariant StoreOk(players, payment, dates)
      invariant RecordedScores(players0, players, date, entries[..i])
      invariant RecordedFlags(players0, payment0, payment, date, entries[..i])
    {
      var e := entries[i];
      ghost var p, f := players, payment;
      AddKeepsStore(p, f, dates, date, e);
      AddScoreStep(players0, p, date, entries[..i], e);
      AddFlagStep(players0, payment0, p, f, date, entries[..i], e);
      assert entries[..i + 1] == entries[..i] + [e];
      var row := if e.name in players then players[e.name] else map[];
      var flags := if e.name in payment then payment[e.name] else map[];
      if date !in row {
        row := row[date := e.score];
        flags := flags[date := false];
      }
      players := players[e.name := row];
      payment := payment[e.name := flags];
      assert players == AddScore(p, date, e) && payment == AddFlag(f, p, date, e);
    }
    assert entries[..|entries|] == entries;
  }

  /** The loops of delete_date: the time is taken out of every player's row. */
  method StripDate<V>(m: map<string, map<string, V>>, date: string) returns (r: map<string, map<string, V>>)
    ensures r.Keys == m.Keys
    ensures forall n :: n in r ==> r[n] == m[n] - {date}
  {
    r := m;
    var todo := m.Keys;
    while todo != {}
      invariant todo <= r.Keys && r.Keys == m.Keys
      invariant forall n :: n in r ==> r[n] == if n in todo then m[n] else m[n] - {date}
      decreases |todo|
    {
      var n :| n in todo;
      if date in r[n] {
        r := r[n := r[n] - {date}];
      }
      todo := todo - {n};
    }
  }

  /** The store of app_simple.py's session: scores, payment flags and game times. */
  class ScoreBook {
    var players: map<string, map<string, int>>
    var payment: map<string, map<string, bool>>
    var dates: seq<string>
    var trigger: nat

    ghost predicate Valid()
      reads this
    {
      StoreOk(players, payment, dates)
    }

    /** The store the page starts with: no players, no times, the refresh counter at 0. */
    constructor ()
      ensures Valid()
      ensures players == map[] && payment == map[] && dates == [] && trigger == 0
    {
      players, payment, dates, trigger := map[], map[], [], 0;
    }

    /** Python's update_game_data for one screenshot taken at `date`: the time joins the sorted
        list if new, every named player gets a row, a player without a score at that time gets
        the first score given for it and an unpaid flag, existing scores and flags are kept, and
        the refresh counter goes up by one. */
    method UpdateGameData(date: string, entries: seq<Entry>)
      requires Valid()
      modifies this
      ensures Valid()
      ensures dates == if date in old(dates) then old(dates) else SortedInsert(old(dates), date)
      ensures RecordedScores(old(players), players, date, entries)
      ensures RecordedFlags(old(players), old(payment), payment, date, entries)
      ensures trigger == old(trigger) + 1
    {
      if date !in dates {
        dates := SortedInsert(dates, date);
      }
      players, payment := RecordEntries(players, payment, dates, date, entries);
      trigger := trigger + 1;
    }

    /** Python's delete_player: the player's scores and flags go; an unknown name changes
        nothing. */
    method DeletePlayer(name: string)
      requires Valid()
      modifies this
      ensures Valid()
      ensures players == old(players) - {name} && payment == old(payment) - {name}
      ensures dates == old(dates) && trigger == old(trigger)
    {
      if name in players {
        players := players - {name};
      }
      if name in payment {
        payment := payment - {name};
      }
    }

    /** Python's delete_date: a listed time leaves the list and every player's scores and flags;
        a time that is not listed changes nothing. */
    method DeleteDate(date: string)
      requires Valid()
      modifies this
      ensures Valid()
      ensures date in old(dates) ==>
        dates == RemoveFirst(old(dates), date) &&
        players.Keys == old(players).Keys && payment.Keys == old(payment).Keys &&
        (forall n :: n in players ==> players[n] == old(players)[n] - {date}) &&
        (forall n :: n in payment ==> payment[n] == old(payment)[n] - {date})
      ensures date !in old(dates) ==> players == old(players) && payment == old(payment) && dates == old(dates)
      ensures trigger == old(trigger)
    {
      if date in dates {
        RemoveFirstSorted(dates, date);
        dates := RemoveFirst(dates, date);
        players := StripDate(players, date);
        payment := StripDate(payment, date);
      }
    }

    /** The total column of create_table_dataframe: for each player, the sum of the scores over
        the listed times, 0 where a score is missing. With no players or no times the table is
        empty. */
    method PlayerTotals() returns (totals: map<string, int>)
      ensures players == map[] || dates == [] ==> totals == map[]
      ensures players != map[] && dates != [] ==>
        totals.Keys == players.Keys && forall n :: n in totals ==> totals[n] == DateSum(dates, players[n])
    {
      totals := map[];
      if players == map[] || dates == [] {
        return;
      }
      var todo := players.Keys;
      while todo != {}
        invariant todo <= players.Keys
        invariant totals.Keys == players.Keys - todo
        invariant forall n :: n in totals ==> totals[n] == DateSum(dates, players[n])
        decreases |todo|
      {
        var n :| n in todo;
        var total := 0;
        for k := 0 to |dates|
          invariant total == DateSum(dates[..k], players[n])
        {
          DateSumAppend(dates[..k], dates[k], players[n]);
          assert dates[..k + 1] == dates[..k] + [dates[k]];
          total := total + ScoreAt(players[n], dates[k]);
        }
        assert dates[..|dates|] == dates;
        totals := totals[n := total];
        todo := todo - {n};
      }
    }
  }
}
