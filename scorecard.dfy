/**
 * A match's scorecard page (scraper.py, `parse_scorecard_html` and its helpers): batting
 * and bowling tables, the "Match Information" table, and the two teams read from the
 * page title.
 *
 * Tables are given as values: the text of a table's `<thead>` when it has one, and its
 * rows as the texts of their `<td>` cells (the first cell also with the texts of its `<b>`
 * and `<small>`). Texts are what `get_text(" ", strip=True)` returns.
 */
module Scorecard {
  import opened Wrappers
  import opened Text
  import opened FlagMapping
  import opened Walk

  /** A `<td>`: its text and the texts of its `<b>` and `<small>`, when it has them. */
  datatype ScoreCell = ScoreCell(text: string, bold: Option<string>, small: Option<string>)

  type ScoreRow = seq<ScoreCell>

  /** A `<table>`: the text of its `<thead>`, if any, and its `<tr>` rows. */
  datatype ScoreTable = ScoreTable(head: Option<string>, rows: seq<ScoreRow>)

  datatype Batter = Batter(
    name: string,
    dismissal: Option<string>,
    runs: Option<string>,
    balls: Option<string>,
    fours: Option<string>,
    sixes: Option<string>,
    sr: Option<string>)
  {
    /** The k-th stat: 1 runs, 2 balls, 3 fours, 4 sixes, 5 strike rate. */
    function StatAt(k: nat): Option<string> {
      if k == 1 then runs else if k == 2 then balls else if k == 3 then fours
      else if k == 4 then sixes else if k == 5 then sr else None
    }
  }

  /** What `_parse_batting_table` returns; `note` is never filled in. */
  datatype Batting = Batting(batters: seq<Batter>, extras: Option<string>, total: Option<string>, note: Option<string>)

  datatype Bowler = Bowler(name: string, overs: string, maidens: string, runs: string, wickets: string, econ: string)

  datatype Innings = Innings(batting: Batting, bowling: Option<seq<Bowler>>, team: Option<string>)

  /** A `<tr>` of the information table: the texts of its first `<th>` and first `<td>`. */
  datatype InfoRow = InfoRow(th: Option<string>, td: Option<string>)

  datatype Scorecard = Scorecard(
    title: Option<string>,
    teams: seq<string>,
    info: Dict,
    innings: seq<Innings>,
    battingCount: nat,
    bowlingCount: nat)

  /** `_text(el)`: the element's text, or "" without an element. */
  function TextOf(el: Option<string>): (t: string)
    ensures el.None? ==> t == ""
    ensures el.Some? ==> t == el.value
  {
    if el.Some? then el.value else ""
  }

  // ---------------------------------------------------------------------------------
  // Batting

  /** The lower-cased first cell, which classifies a batting row. */
  function Label(row: ScoreRow): string
    requires row != []
  {
    Lower(row[0].text)
  }

  /** The texts of the cells after the first, joined by spaces and stripped; absent when that is empty. */
  function RestJoined(row: ScoreRow): (r: Option<string>)
    requires row != []
    ensures r.Some? ==> r.value != "" && IsStripped(r.value)
  {
    NonEmpty(Strip(Join(" ", seq(|row| - 1, i requires 0 <= i < |row| - 1 => row[i + 1].text))))
  }

  /** The i-th stat cell (runs, balls, 4s, 6s, strike rate), when the row has it. */
  function Stat(row: ScoreRow, i: nat): (r: Option<string>)
    ensures r.Some? <==> i < |row|
    ensures r.Some? ==> r.value == row[i].text
  {
    if i < |row| then Some(row[i].text) else None
  }

  /** A player row's name: the `<b>` text, or else the cell's text. */
  function PlayerName(row: ScoreRow): (n: string)
    requires row != []
    ensures n == "" ==> TextOf(row[0].bold) == "" && row[0].text == ""
  {
    if TextOf(row[0].bold) != "" then TextOf(row[0].bold) else row[0].text
  }

  /** The player row's test: a name, some non-empty stat, and not a "did not bat" row. */
  predicate IsPlayerRow(row: ScoreRow)
    requires row != []
  {
    && PlayerName(row) != ""
    && (exists i :: 1 <= i <= 5 && Truthy(Stat(row, i)))
    && !StartsWith(Label(row), "did not bat")
  }

  /** One row of the batting table applied to what the earlier rows gave. */
  function BattingStep(acc: Batting, row: ScoreRow): (r: Batting)
    ensures row == [] ==> r == acc
    ensures row != [] && StartsWith(Label(row), "extras") ==> r == acc.(extras := RestJoined(row))
    ensures row != [] && !StartsWith(Label(row), "extras") && StartsWith(Label(row), "total") ==>
      r == acc.(total := RestJoined(row))
    ensures r.note == acc.note
    ensures |r.batters| == |acc.batters| || |r.batters| == |acc.batters| + 1
    ensures |r.batters| == |acc.batters| + 1 ==>
      && row != [] && IsPlayerRow(row)
      && !StartsWith(Label(row), "extras") && !StartsWith(Label(row), "total")
      && r.batters == acc.batters + [Batter(PlayerName(row), NonEmpty(TextOf(row[0].small)),
                                           Stat(row, 1), Stat(row, 2), Stat(row, 3), Stat(row, 4), Stat(row, 5))]
    ensures row != [] && !StartsWith(Label(row), "extras") && !StartsWith(Label(row), "total") ==>
      r == (if IsPlayerRow(row) then acc.(batters := r.batters) else acc)
  {
    if row == [] then acc
    else if StartsWith(Label(row), "extras") then acc.(extras := RestJoined(row))
    else if StartsWith(Label(row), "total") then acc.(total := RestJoined(row))
    else if IsPlayerRow(row) then
      var b := Batter(PlayerName(row), NonEmpty(TextOf(row[0].small)),
                      Stat(row, 1), Stat(row, 2), Stat(row, 3), Stat(row, 4), Stat(row, 5));
      acc.(batters := acc.batters + [b])
    else acc
  }

  /** Some stat of the batter is non-empty. */
  predicate HasStat(b: Batter) {
    exists k :: 1 <= k <= 5 && Truthy(b.StatAt(k))
  }

  /** The batting table's rows, in order, from nothing. */
  function BattingOf(rows: seq<ScoreRow>): (r: Batting)
    ensures r.note.None?
    ensures |r.batters| <= |rows|
    ensures forall i :: 0 <= i < |r.batters| ==> r.batters[i].name != ""
    ensures forall i :: 0 <= i < |r.batters| ==> HasStat(r.batters[i])
    decreases |rows|
  {
    if rows == [] then Batting([], None, None, None)
    else
      var prev := BattingOf(rows[..|rows| - 1]);
      var row := rows[|rows| - 1];
      var r := BattingStep(prev, row);
      if |r.batters| == |prev.batters| + 1 then
        var b := r.batters[|prev.batters|];
        assert HasStat(b) by {
          var k :| 1 <= k <= 5 && Truthy(Stat(row, k));
          assert b.StatAt(k) == Stat(row, k);
        }
        assert forall i :: 0 <= i < |prev.batters| ==> r.batters[i] == prev.batters[i];
        r
      else r
  }

  /**
   * A row labelled "extras" or "total" sets that field, whatever an earlier such row set,
   * and adds no player.
   */
  lemma ExtrasTotalLastWins(rows: seq<ScoreRow>, row: ScoreRow)
    requires row != []
    requires StartsWith(Label(row), "extras") || StartsWith(Label(row), "total")
    ensures BattingOf(rows + [row]).batters == BattingOf(rows).batters
    ensures StartsWith(Label(row), "extras") ==> BattingOf(rows + [row]).extras == RestJoined(row)
    ensures StartsWith(Label(row), "total") ==> BattingOf(rows + [row]).total == RestJoined(row)
  {
    assert (rows + [row])[..|rows|] == rows;
    if StartsWith(Label(row), "total") {
      assert !StartsWith(Label(row), "extras") by {
        assert Label(row)[0] == 't';
      }
    }
  }

  /** A "did not bat" row adds nobody. */
  lemma DidNotBatAddsNobody(rows: seq<ScoreRow>, row: ScoreRow)
    requires row != [] && StartsWith(Label(row), "did not bat")
    ensures BattingOf(rows + [row]).batters == BattingOf(rows).batters
  {
    assert (rows + [row])[..|rows|] == rows;
  }

  /** A row with a name and a stat, not labelled extras, total or "did not bat", adds its player. */
  lemma PlayerRowAdds(rows: seq<ScoreRow>, row: ScoreRow)
    requires row != [] && IsPlayerRow(row)
    requires !StartsWith(Label(row), "extras") && !StartsWith(Label(row), "total")
    ensures BattingOf(rows + [row]).batters ==
      BattingOf(rows).batters + [Batter(PlayerName(row), NonEmpty(TextOf(row[0].small)),
                                         Stat(row, 1), Stat(row, 2), Stat(row, 3), Stat(row, 4), Stat(row, 5))]
  {
    assert (rows + [row])[..|rows|] == rows;
  }

  // ---------------------------------------------------------------------------------
  // Bowling

  /** The bowler a row of six or more cells describes: name, overs, maidens, runs, wickets, economy. */
  function RowBowler(row: ScoreRow): Bowler
    requires |row| >= 6
  {
    Bowler(row[0].text, row[1].text, row[2].text, row[3].text, row[4].text, row[5].text)
  }

  /** One row of the bowling table: kept when it has six cells and a name. */
  function BowlingStep(acc: seq<Bowler>, row: ScoreRow): (r: seq<Bowler>)
    ensures |row| < 6 || row[0].text == "" ==> r == acc
    ensures |row| >= 6 && row[0].text != "" ==>
      r == acc + [Bowler(row[0].text, row[1].text, row[2].text, row[3].text, row[4].text, row[5].text)]
  {
    if |row| < 6 then acc
    else
      var name := row[0].text;
      if name != "" then acc + [RowBowler(row)]
      else acc
  }

  function BowlingOf(rows: seq<ScoreRow>): (r: seq<Bowler>)
    ensures |r| <= |rows|
    ensures forall i :: 0 <= i < |r| ==> r[i].name != ""
    decreases |rows|
  {
    if rows == [] then [] else BowlingStep(BowlingOf(rows[..|rows| - 1]), rows[|rows| - 1])
  }

  /** A row of six or more cells with a name appends its bowler, with all six fields. */
  lemma BowlerRowAdds(rows: seq<ScoreRow>, row: ScoreRow)
    requires |row| >= 6 && row[0].text != ""
    ensures BowlingOf(rows + [row]) == BowlingOf(rows) + [RowBowler(row)]
  {
    assert (rows + [row])[..|rows|] == rows;
  }

  /** Any other row adds nobody. */
  lemma BowlerRowSkipped(rows: seq<ScoreRow>, row: ScoreRow)
    requires |row| < 6 || row[0].text == ""
    ensures BowlingOf(rows + [row]) == BowlingOf(rows)
  {
    assert (rows + [row])[..|rows|] == rows;
  }

  /** The bowlers of two runs of rows are those of the first run, then those of the second. */
  lemma {:induction false} BowlingOfAppend(a: seq<ScoreRow>, b: seq<ScoreRow>)
    ensures BowlingOf(a + b) == BowlingOf(a) + BowlingOf(b)
    decreases |b|
  {
    if b == [] {
      assert a + b == a;
    } else {
      var init := b[..|b| - 1];
      var last := b[|b| - 1];
      BowlingOfAppend(a, init);
      assert a + b == (a + init) + [last];
      assert b == init + [last];
      if |last| >= 6 && last[0].text != "" {
        BowlerRowAdds(a + init, last);
        BowlerRowAdds(init, last);
      } else {
        BowlerRowSkipped(a + init, last);
        BowlerRowSkipped(init, last);
      }
    }
  }

  /**
   * A row of six or more cells with a name gives its bowler, placed after the bowlers of the
   * rows before it and before those of the rows after it.
   */
  lemma BowlingOfRowAt(rows: seq<ScoreRow>, k: nat)
    requires k < |rows| && |rows[k]| >= 6 && rows[k][0].text != ""
    ensures BowlingOf(rows) == BowlingOf(rows[..k]) + [RowBowler(rows[k])] + BowlingOf(rows[k + 1..])
  {
    assert rows == rows[..k] + [rows[k]] + rows[k + 1..];
    BowlingOfAppend(rows[..k] + [rows[k]], rows[k + 1..]);
    BowlerRowAdds(rows[..k], rows[k]);
  }

  /** Every bowler is the whole six-cell bowler of some row with at least six cells and a name. */
  lemma {:induction false} BowlersFromRows(rows: seq<ScoreRow>, i: nat)
    requires i < |BowlingOf(rows)|
    ensures exists k :: 0 <= k < |rows| && |rows[k]| >= 6 && rows[k][0].text != "" && BowlingOf(rows)[i] == RowBowler(rows[k])
    decreases |rows|
  {
    var init := rows[..|rows| - 1];
    var last := rows[|rows| - 1];
    assert rows == init + [last];
    if |last| >= 6 && last[0].text != "" {
      BowlerRowAdds(init, last);
    } else {
      BowlerRowSkipped(init, last);
    }
    if i < |BowlingOf(init)| {
      BowlersFromRows(init, i);
      var k :| 0 <= k < |init| && |init[k]| >= 6 && init[k][0].text != "" && BowlingOf(init)[i] == RowBowler(init[k]);
      assert rows[k] == init[k];
    } else {
      assert BowlingOf(rows)[i] == RowBowler(rows[|rows| - 1]);
    }
  }

  // ---------------------------------------------------------------------------------
  // Match information

  /** The information rows, in order: a row with a key and a value sets it. */
  function InfoOf(rows: seq<InfoRow>): (d: Dict)
    ensures IsDict(d)
    decreases |rows|
  {
    if rows == [] then []
    else
      var prev := InfoOf(rows[..|rows| - 1]);
      var row := rows[|rows| - 1];
      var key, val := TextOf(row.th), TextOf(row.td);
      if key != "" && val != "" then Put(prev, key, val) else prev
  }

  /** A row counts for the information table when both its key and its value are non-empty. */
  predicate InfoRowSets(row: InfoRow, key: string) {
    TextOf(row.th) == key && key != "" && TextOf(row.td) != ""
  }

  /** One row: it sets its key when it counts, and leaves every other key alone. */
  lemma InfoStep(rows: seq<InfoRow>, key: string)
    requires rows != []
    ensures Get(InfoOf(rows), key) ==
              if InfoRowSets(rows[|rows| - 1], key) then Some(TextOf(rows[|rows| - 1].td))
              else Get(InfoOf(rows[..|rows| - 1]), key)
  {
  }

  /** A key is present exactly when some row with a non-empty value sets it. */
  lemma {:induction false} InfoKeys(rows: seq<InfoRow>, key: string)
    ensures key in Keys(InfoOf(rows)) <==> exists i :: 0 <= i < |rows| && InfoRowSets(rows[i], key)
    decreases |rows|
  {
    if rows != [] {
      var init := rows[..|rows| - 1];
      InfoKeys(init, key);
      InfoStep(rows, key);
      assert forall i :: 0 <= i < |init| ==> init[i] == rows[i];
      if InfoRowSets(rows[|rows| - 1], key) {
        assert InfoRowSets(rows[|rows| - 1], key);
      }
    }
  }

  /** A key holds the value of the last row that set it. */
  lemma {:induction false} InfoLastValue(rows: seq<InfoRow>, key: string, i: nat)
    requires i < |rows| && InfoRowSets(rows[i], key)
    requires forall j :: i < j < |rows| ==> !InfoRowSets(rows[j], key)
    ensures Get(InfoOf(rows), key) == Some(TextOf(rows[i].td))
    decreases |rows|
  {
    InfoStep(rows, key);
    if i < |rows| - 1 {
      var init := rows[..|rows| - 1];
      assert forall j :: 0 <= j < |init| ==> init[j] == rows[j];
      InfoLastValue(init, key, i);
    }
  }

  /**
   * The key set is exactly the keys of the rows that count, and each key holds the value of
   * the last row that set it.
   */
  lemma InfoLastWins(rows: seq<InfoRow>, key: string)
    ensures key in Keys(InfoOf(rows)) <==> exists i :: 0 <= i < |rows| && InfoRowSets(rows[i], key)
    ensures forall i :: 0 <= i < |rows| && InfoRowSets(rows[i], key) &&
                        (forall j :: i < j < |rows| ==> !InfoRowSets(rows[j], key)) ==>
                        Get(InfoOf(rows), key) == Some(TextOf(rows[i].td))
  {
    InfoKeys(rows, key);
    forall i | 0 <= i < |rows| && InfoRowSets(rows[i], key) && (forall j :: i < j < |rows| ==> !InfoRowSets(rows[j], key))
      ensures Get(InfoOf(rows), key) == Some(TextOf(rows[i].td))
    {
      InfoLastValue(rows, key, i);
    }
  }

  // ---------------------------------------------------------------------------------
  // Title and teams

  /**
   * `_extract_title_and_teams`: the page title, and the two team names around its first
   * " VS " (the right one cut at its first comma) when both are non-empty.
   */
  function TitleAndTeams(titleText: string): (r: (Option<string>, seq<string>))
    ensures r.0 == NonEmpty(titleText)
    ensures r.1 == [] || (|r.1| == 2 && r.1[0] != "" && r.1[1] != "")
    ensures r.1 != [] ==> Contains(titleText, " VS ")
    ensures Contains(titleText, " VS ") ==>
      var split := SplitOnce(titleText, " VS ");
      var left := Strip(split.0);
      var right := Strip(SplitOnce(if split.1.Some? then split.1.value else "", ",").0);
      (r.1 != [] <==> left != "" && right != "") && (r.1 != [] ==> r.1 == [left, right])
  {
    var title := NonEmpty(titleText);
    if title.Some? && Contains(title.value, " VS ") then
      var split := SplitOnce(title.value, " VS ");
      var left := Strip(split.0);
      var rightPart := if split.1.Some? then split.1.value else "";
      var right := Strip(SplitOnce(rightPart, ",").0);
      if left != "" && right != "" then (title, [left, right]) else (title, [])
    else (title, [])
  }

  /**
   * A title "L VS R, rest" gives the teams L and R, when both are non-empty and stripped,
   * R has no comma, and " VS " does not occur in L followed by a space (L neither contains
   * " VS " nor ends in " VS").
   */
  lemma TitleTeamsRoundTrip(left: string, right: string, rest: string)
    requires left != "" && IsStripped(left) && forall i :: !OccursAt(left + " ", " VS ", i)
    requires right != "" && IsStripped(right) && forall i :: 0 <= i < |right| ==> right[i] != ','
    ensures TitleAndTeams(left + " VS " + right + ", " + rest).1 == [left, right]
  {
    var tail := right + ", " + rest;
    assert left + " VS " + right + ", " + rest == left + " VS " + tail;
    SplitAtFirstVs(left, tail);
    SplitAtFirstComma(right, rest);
    StripStripped(left);
    StripStripped(right);
  }

  /** A title "L VS R", with no part after a comma, gives the teams L and R under the same conditions. */
  lemma TitleTeamsNoComma(left: string, right: string)
    requires left != "" && IsStripped(left) && forall i :: !OccursAt(left + " ", " VS ", i)
    requires right != "" && IsStripped(right) && forall i :: 0 <= i < |right| ==> right[i] != ','
    ensures TitleAndTeams(left + " VS " + right).1 == [left, right]
  {
    SplitAtFirstVs(left, right);
    forall j ensures !OccursAt(right, ",", j) {
      if 0 <= j && j + 1 <= |right| {
        assert right[j..j + 1][0] == right[j];
      }
    }
    StripStripped(left);
    StripStripped(right);
  }

  /** The first " VS " of `left + " VS " + tail` is the one after `left`. */
  lemma SplitAtFirstVs(left: string, tail: string)
    requires left != "" && IsStripped(left) && forall i :: !OccursAt(left + " ", " VS ", i)
    ensures Contains(left + " VS " + tail, " VS ")
    ensures SplitOnce(left + " VS " + tail, " VS ") == (left, Some(tail))
  {
    var s := left + " VS " + tail;
    var n := |left|;
    assert OccursAt(s, " VS ", n) by {
      assert s[n..n + 4] == " VS ";
    }
    forall j | 0 <= j < n ensures !OccursAt(s, " VS ", j) {
      NoVsInsideLeft(left, tail, j);
    }
    IndexOfFirst(s, " VS ", n);
    assert s[..n] == left;
    assert s[n + 4..] == tail;
  }

  lemma NoVsInsideLeft(left: string, tail: string, j: nat)
    requires left != "" && IsStripped(left) && forall i :: !OccursAt(left + " ", " VS ", i)
    requires j < |left|
    ensures !OccursAt(left + " VS " + tail, " VS ", j)
  {
    var s := left + " VS " + tail;
    var n := |left|;
    if j + 4 <= n + 1 {
      assert s[..n + 1] == left + " ";
      assert s[j..j + 4] == (left + " ")[j..j + 4];
      assert !OccursAt(left + " ", " VS ", j);
    } else if j == n - 1 {
      assert s[j] == left[n - 1] && !IsSpace(left[n - 1]);
      assert s[j..j + 4][0] == s[j];
    } else {
      assert j == n - 2;
      assert s[n] == ' ';
      assert s[j..j + 4][2] == s[n];
    }
  }

  /** The first comma of `right + ", " + rest` is the one after `right` when `right` has none. */
  lemma SplitAtFirstComma(right: string, rest: string)
    requires forall i :: 0 <= i < |right| ==> right[i] != ','
    ensures SplitOnce(right + ", " + rest, ",").0 == right
  {
    var s := right + ", " + rest;
    var m := |right|;
    assert OccursAt(s, ",", m) by {
      assert s[m..m + 1] == ",";
    }
    forall j | 0 <= j < m ensures !OccursAt(s, ",", j) {
      assert s[j..j + 1][0] == right[j];
    }
    IndexOfFirst(s, ",", m);
    assert s[..m] == right;
  }

  // ---------------------------------------------------------------------------------
  // The imperative passes

  lemma AnyStatIff(tds: ScoreRow)
    ensures (Truthy(Stat(tds, 1)) || Truthy(Stat(tds, 2)) || Truthy(Stat(tds, 3)) || Truthy(Stat(tds, 4)) || Truthy(Stat(tds, 5)))
      <==> exists k :: 1 <= k <= 5 && Truthy(Stat(tds, k))
  {
    if exists k :: 1 <= k <= 5 && Truthy(Stat(tds, k)) {
      var k :| 1 <= k <= 5 && Truthy(Stat(tds, k));
      assert k == 1 || k == 2 || k == 3 || k == 4 || k == 5;
    }
  }

  /** `_parse_batting_table(table)`. */
  method ParseBattingTable(rows: seq<ScoreRow>) returns (r: Batting)
    ensures r == BattingOf(rows)
  {
    var batters: seq<Batter> := [];
    var extras: Option<string> := None;
    var total: Option<string> := None;
    var note: Option<string> := None;
    var i := 0;
    while i < |rows|
      invariant 0 <= i <= |rows|
      invariant Batting(batters, extras, total, note) == BattingOf(rows[..i])
    {
      var tds := rows[i];
      assert rows[..i + 1][..i] == rows[..i];
      ghost var prev := Batting(batters, extras, total, note);
      assert BattingOf(rows[..i + 1]) == BattingStep(prev, tds);
      i := i + 1;
      if tds == [] {
        continue;
      }
      var rowLabel := Lower(tds[0].text);
      if StartsWith(rowLabel, "extras") {
        extras := RestJoined(tds);
        continue;
      }
      if StartsWith(rowLabel, "total") {
        total := RestJoined(tds);
        continue;
      }
      var name := PlayerName(tds);
      var dismissal := NonEmpty(TextOf(tds[0].small));
      var stats := [Stat(tds, 1), Stat(tds, 2), Stat(tds, 3), Stat(tds, 4), Stat(tds, 5)];
      var anyStat := Truthy(stats[0]) || Truthy(stats[1]) || Truthy(stats[2]) || Truthy(stats[3]) || Truthy(stats[4]);
      AnyStatIff(tds);
      assert (name != "" && anyStat && !StartsWith(rowLabel, "did not bat")) == IsPlayerRow(tds);
      if name != "" && anyStat && !StartsWith(rowLabel, "did not bat") {
        batters := batters + [Batter(name, dismissal, stats[0], stats[1], stats[2], stats[3], stats[4])];
      }
    }
    assert rows[..i] == rows;
    r := Batting(batters, extras, total, note);
  }

  /** `_parse_bowling_table(table)`. */
  method ParseBowlingTable(rows: seq<ScoreRow>) returns (bowlers: seq<Bowler>)
    ensures bowlers == BowlingOf(rows)
  {
    bowlers := [];
    var i := 0;
    while i < |rows|
      invariant 0 <= i <= |rows|
      invariant bowlers == BowlingOf(rows[..i])
    {
      var tds := rows[i];
      assert rows[..i + 1][..i] == rows[..i];
      i := i + 1;
      if |tds| < 6 {
        continue;
      }
      var name := tds[0].text;
      if name != "" {
        bowlers := bowlers + [Bowler(name, tds[1].text, tds[2].text, tds[3].text, tds[4].text, tds[5].text)];
      }
    }
    assert rows[..i] == rows;
  }

  /** `_parse_match_info(soup)`: no table gives an empty dictionary. */
  method ParseMatchInfo(table: Option<seq<InfoRow>>) returns (info: Dict)
    ensures table.None? ==> info == []
    ensures table.Some? ==> info == InfoOf(table.value)
  {
    info := [];
    if table.None? {
      return;
    }
    var rows := table.value;
    var i := 0;
    while i < |rows|
      invariant 0 <= i <= |rows|
      invariant info == InfoOf(rows[..i])
    {
      assert rows[..i + 1][..i] == rows[..i];
      var key := TextOf(rows[i].th);
      var val := TextOf(rows[i].td);
      if key != "" && val != "" {
        info := Put(info, key, val);
      }
      i := i + 1;
    }
    assert rows[..i] == rows;
  }

  /** A table is a batting table when its header mentions batting. */
  predicate IsBattingTable(t: ScoreTable) {
    t.head.Some? && Contains(Lower(t.head.value), "batting")
  }

  /** A bowling table mentions bowling and not batting. */
  predicate IsBowlingTable(t: ScoreTable) {
    t.head.Some? && !Contains(Lower(t.head.value), "batting") && Contains(Lower(t.head.value), "bowling")
  }

  /** The header test for one kind of table. */
  function OfKind(batting: bool): ScoreTable -> bool {
    (t: ScoreTable) => if batting then IsBattingTable(t) else IsBowlingTable(t)
  }

  /** The tables of one kind, in page order (FilterKind, FilterOne, FilterAppend). */
  function Filter(tables: seq<ScoreTable>, batting: bool): (r: seq<ScoreTable>)
    ensures |r| <= |tables|
  {
    Select(tables, OfKind(batting))
  }

  /** Every table kept is of the kind, and every table of the kind is kept. */
  lemma FilterKind(tables: seq<ScoreTable>, batting: bool)
    ensures var r := Filter(tables, batting);
      && (forall i :: 0 <= i < |r| ==> if batting then IsBattingTable(r[i]) else IsBowlingTable(r[i]))
      && (forall i :: 0 <= i < |tables| && (if batting then IsBattingTable(tables[i]) else IsBowlingTable(tables[i])) ==>
            tables[i] in r)
  {
    SelectKeeps(tables, OfKind(batting));
    var r := Filter(tables, batting);
    assert forall i :: 0 <= i < |r| ==> OfKind(batting)(r[i]);
    assert forall i :: 0 <= i < |tables| && OfKind(batting)(tables[i]) ==> tables[i] in r;
  }

  /** One table is kept exactly when it is of the kind. */
  lemma FilterOne(t: ScoreTable, batting: bool)
    ensures Filter([t], batting) == if (if batting then IsBattingTable(t) else IsBowlingTable(t)) then [t] else []
  {
    SelectOne(t, OfKind(batting));
    assert OfKind(batting)(t) == if batting then IsBattingTable(t) else IsBowlingTable(t);
  }

  lemma FilterLast(tables: seq<ScoreTable>, batting: bool)
    requires tables != []
    ensures Filter(tables, batting) == Filter(tables[..|tables| - 1], batting) + Filter([tables[|tables| - 1]], batting)
  {
    SelectAppend(tables[..|tables| - 1], [tables[|tables| - 1]], OfKind(batting));
    assert tables[..|tables| - 1] + [tables[|tables| - 1]] == tables;
  }

  /** The tables of one kind keep their page order: filtering distributes over concatenation. */
  lemma FilterAppend(a: seq<ScoreTable>, b: seq<ScoreTable>, batting: bool)
    ensures Filter(a + b, batting) == Filter(a, batting) + Filter(b, batting)
  {
    SelectAppend(a, b, OfKind(batting));
  }

  /** A table whose header mentions both is a batting table only. */
  lemma {:induction false} BattingWins(tables: seq<ScoreTable>)
    ensures |Filter(tables, true)| + |Filter(tables, false)| <= |tables|
    decreases |tables|
  {
    if tables != [] {
      BattingWins(tables[..|tables| - 1]);
      FilterLast(tables, true);
      FilterLast(tables, false);
      FilterOne(tables[|tables| - 1], true);
      FilterOne(tables[|tables| - 1], false);
    }
  }

  /** The loop over the page's tables: batting tables, and bowling tables that are not batting. */
  method ClassifyTables(tables: seq<ScoreTable>) returns (battingTables: seq<ScoreTable>, bowlingTables: seq<ScoreTable>)
    ensures battingTables == Filter(tables, true) && bowlingTables == Filter(tables, false)
  {
    battingTables := [];
    bowlingTables := [];
    var k := 0;
    while k < |tables|
      invariant 0 <= k <= |tables|
      invariant battingTables == Filter(tables[..k], true)
      invariant bowlingTables == Filter(tables[..k], false)
    {
      var t := tables[k];
      assert tables[..k + 1][..k] == tables[..k];
      FilterLast(tables[..k + 1], true);
      FilterLast(tables[..k + 1], false);
      FilterOne(t, true);
      FilterOne(t, false);
      k := k + 1;
      if t.head.None? {
        continue;
      }
      var head := Lower(t.head.value);
      if Contains(head, "batting") {
        battingTables := battingTables + [t];
      } else if Contains(head, "bowling") {
        bowlingTables := bowlingTables + [t];
      }
    }
    assert tables[..k] == tables;
  }

  /**
   * One innings per batting table: the i-th is paired with the i-th bowling table when
   * there is one, and named after `teams[i % len(teams)]` when there are teams.
   */
  method PairInnings(battingTables: seq<ScoreTable>, bowlingTables: seq<ScoreTable>, teams: seq<string>)
    returns (innings: seq<Innings>)
    ensures |innings| == |battingTables|
    ensures forall i :: 0 <= i < |innings| ==> innings[i] == InningsAt(battingTables, bowlingTables, teams, i)
  {
    innings := [];
    var idx := 0;
    while idx < |battingTables|
      invariant 0 <= idx <= |battingTables|
      invariant |innings| == idx
      invariant forall i :: 0 <= i < idx ==> innings[i] == InningsAt(battingTables, bowlingTables, teams, i)
    {
      var batting := ParseBattingTable(battingTables[idx].rows);
      var bowl: Option<seq<Bowler>> := None;
      if idx < |bowlingTables| {
        var bowlers := ParseBowlingTable(bowlingTables[idx].rows);
        bowl := Some(bowlers);
      }
      var team: Option<string> := None;
      if teams != [] {
        team := Some(teams[idx % |teams|]);
      }
      assert Innings(batting, bowl, team) == InningsAt(battingTables, bowlingTables, teams, idx);
      innings := innings + [Innings(batting, bowl, team)];
      idx := idx + 1;
    }
  }

  /** The innings built for the `i`-th batting table. */
  function InningsAt(battingTables: seq<ScoreTable>, bowlingTables: seq<ScoreTable>, teams: seq<string>, i: nat): Innings
    requires i < |battingTables|
  {
    Innings(
      BattingOf(battingTables[i].rows),
      if i < |bowlingTables| then Some(BowlingOf(bowlingTables[i].rows)) else None,
      if teams == [] then None else Some(teams[i % |teams|]))
  }

  /** `parse_scorecard_html`: title, teams, information and the innings. */
  method ParseScorecard(titleText: string, tables: seq<ScoreTable>, infoTable: Option<seq<InfoRow>>) returns (card: Scorecard)
    ensures (card.title, card.teams) == TitleAndTeams(titleText)
    ensures card.battingCount == |Filter(tables, true)| && card.bowlingCount == |Filter(tables, false)|
    ensures |card.innings| == card.battingCount
    ensures forall i :: 0 <= i < |card.innings| ==> card.innings[i].batting == BattingOf(Filter(tables, true)[i].rows)
    ensures forall i :: 0 <= i < |card.innings| ==>
      (card.innings[i].bowling.Some? <==> i < card.bowlingCount)
    ensures forall i :: 0 <= i < |card.innings| && i < card.bowlingCount ==>
      card.innings[i].bowling == Some(BowlingOf(Filter(tables, false)[i].rows))
    ensures forall i :: 0 <= i < |card.innings| ==>
      card.innings[i].team == if card.teams == [] then None else Some(card.teams[i % |card.teams|])
    ensures card.info == if infoTable.None? then [] else InfoOf(infoTable.value)
  {
    var tt := TitleAndTeams(titleText);
    var title, teams := tt.0, tt.1;
    var battingTables, bowlingTables := ClassifyTables(tables);
    var innings := PairInnings(battingTables, bowlingTables, teams);
    var info := ParseMatchInfo(infoTable);
    card := Scorecard(title, teams, info, innings, |battingTables|, |bowlingTables|);
  }
}
