/**
 * The leaderboard pipeline shared by the development server and the API
 * handler: parse the stored `name,score` lines, add the new entry, sort by
 * score highest first, keep the first ten and write them back as
 * `name,score` lines. Array.prototype.sort must be stable (ECMA-262, 2024
 * edition, section 23.1.3.30), so entries with equal scores keep their
 * relative order.
 */
module Leaderboard {
  import opened Wrappers
  import opened JsText

  /** How many entries the board keeps (`slice(0, 10)`). */
  const Capacity: nat := 10

  datatype Entry = Entry(name: string, score: int)

  // ---------------------------------------------------------------- parsing

  /** `parseInt(field, 10) || 0`: NaN, +0 and -0 all become 0. */
  function ScoreOf(field: string): (score: int)
    ensures field == [] || !(IsDigit(field[0]) || IsSpace(field[0]) || field[0] == '-' || field[0] == '+') ==> score == 0
  {
    match ParseInt(field)
    case None => 0
    case Some(v) => v
  }

  /** `parseInt(field, 10) || 0` on a field holding an integer after
      optional white space and sign: that integer, whatever follows it. */
  lemma ScoreOfLeadingInteger(ws: string, ds: string, rest: string)
    requires forall i :: 0 <= i < |ws| ==> IsSpace(ws[i])
    requires ds != [] && AllDigits(ds)
    requires rest == [] || !IsDigit(rest[0])
    ensures ScoreOf(ws + ds + rest) == DigitsValue(ds)
    ensures ScoreOf(ws + ['+'] + ds + rest) == DigitsValue(ds)
    ensures ScoreOf(ws + ['-'] + ds + rest) == -(DigitsValue(ds) as int)
  {
    ParseIntLeadingInteger(ws, ds, rest);
    ParseIntLeadingSigned(ws, '+', ds, rest);
    ParseIntLeadingSigned(ws, '-', ds, rest);
  }

  /** A field with no digit right after its white space and optional sign scores 0. */
  lemma ScoreOfNoInteger(ws: string, sign: string, rest: string)
    requires forall i :: 0 <= i < |ws| ==> IsSpace(ws[i])
    requires sign == "" || sign == "+" || sign == "-"
    requires rest == [] || !IsDigit(rest[0])
    requires sign == "" && rest != [] ==> !IsSpace(rest[0]) && rest[0] != '+' && rest[0] != '-'
    ensures ScoreOf(ws + sign + rest) == 0
  {
    ParseIntNoInteger(ws, sign, rest);
  }

  /** One stored line, read as `const [player, score] = line.split(",")`:
      the name is the text before the first comma; the score is read from
      the text between the first and the second comma, and a line without
      a comma has an `undefined` score, which parseInt reads as the text
      "undefined". */
  function ParseLine(line: string): (e: Entry)
    ensures e.name <= line && ',' !in e.name
  {
    var fields := Split(line, ',');
    JoinEnds(fields, ',');
    Entry(fields[0], ScoreOf(if |fields| > 1 then fields[1] else "undefined"))
  }

  /** A line without a comma is a name with score 0: parseInt finds no digits in "undefined". */
  lemma LineWithoutComma(line: string)
    requires ',' !in line
    ensures ParseLine(line) == Entry(line, 0)
  {
    SplitNoSeparator(line, ',');
    var u := "undefined";
    assert TrimStart(u) == u by {
      assert !IsSpace(u[0]);
    }
    assert LeadingDigits(u) == [];
  }

  /** A line with a comma: the name is the text before the first comma and
      the score is read from the second field only, whatever follows a
      second comma. */
  lemma LineFields(name: string, field: string, rest: string)
    requires ',' !in name && ',' !in field
    requires rest == [] || rest[0] == ','
    ensures ParseLine(name + [','] + field + rest) == Entry(name, ScoreOf(field))
  {
    SplitAfterPiece(name, ',', field + rest);
    assert name + [','] + field + rest == name + [','] + (field + rest);
    if rest == [] {
      assert field + rest == field;
      SplitNoSeparator(field, ',');
    } else {
      assert field + rest == field + [','] + rest[1..];
      SplitAfterPiece(field, ',', rest[1..]);
    }
  }

  /** `line.trim() !== ""`; by JsText.TrimBlank, a line that is not all white space. */
  predicate NotBlank(line: string) {
    Trim(line) != []
  }

  /** The `filter` that drops blank and white-space-only lines, keeping order. */
  function NonBlank(lines: seq<string>): (r: seq<string>)
    ensures |r| <= |lines|
    ensures forall l :: l in r <==> l in lines && NotBlank(l)
  {
    if lines == [] then []
    else (if NotBlank(lines[0]) then [lines[0]] else []) + NonBlank(lines[1..])
  }

  /** The filter works line by line over a concatenation, so kept lines
      keep their order and repeated lines stay repeated. */
  lemma {:induction false} NonBlankAppend(a: seq<string>, b: seq<string>)
    ensures NonBlank(a + b) == NonBlank(a) + NonBlank(b)
  {
    if a == [] {
      assert a + b == b;
    } else {
      var x, rest := a[0], a[1..];
      ConsAppend(a, b);
      NonBlankCons(x, rest);
      NonBlankCons(x, rest + b);
      NonBlankAppend(rest, b);
      AppendAssoc(if NotBlank(x) then [x] else [], NonBlank(rest), NonBlank(b));
    }
  }

  /** Splitting off the head of a non-empty sequence, alone and before `b`. */
  lemma ConsAppend<T>(a: seq<T>, b: seq<T>)
    requires a != []
    ensures a == [a[0]] + a[1..] && a + b == [a[0]] + (a[1..] + b)
  {
  }

  lemma AppendAssoc<T>(h: seq<T>, p: seq<T>, q: seq<T>)
    ensures h + (p + q) == (h + p) + q
  {
  }

  lemma NonBlankCons(x: string, rest: seq<string>)
    ensures NonBlank([x] + rest) == (if NotBlank(x) then [x] else []) + NonBlank(rest)
  {
    assert ([x] + rest)[1..] == rest;
  }

  /** The stored text as entries: trim it, split it into lines, drop the
      blank ones and read each of the others. */
  function Parse(text: string): (r: seq<Entry>)
    ensures forall e :: e in r ==> ',' !in e.name && '\n' !in e.name
  {
    var lines := NonBlank(Split(Trim(text), '\n'));
    var r := seq(|lines|, i requires 0 <= i < |lines| => ParseLine(lines[i]));
    assert forall i :: 0 <= i < |r| ==> ',' !in r[i].name && '\n' !in r[i].name by {
      forall i | 0 <= i < |r| ensures ',' !in r[i].name && '\n' !in r[i].name {
        assert lines[i] in lines;
        PrefixLacks(r[i].name, lines[i], '\n');
      }
    }
    r
  }

  lemma PrefixLacks(a: string, b: string, c: char)
    requires a <= b && c !in b
    ensures c !in a
  {
  }

  /** Empty stored text (also what a missing file becomes) holds no entries. */
  lemma ParseEmpty()
    ensures Parse([]) == []
  {
    assert Trim([]) == [];
    assert Split([], '\n') == [[]];
  }

  // ------------------------------------------------------------- formatting

  function FormatEntry(e: Entry): string {
    e.name + [','] + IntText(e.score)
  }

  function FormatLines(board: seq<Entry>): seq<string> {
    seq(|board|, i requires 0 <= i < |board| => FormatEntry(board[i]))
  }

  /** `scores.map(entry => `${entry.name},${entry.score}`).join("\n")`: no trailing newline. */
  function Format(board: seq<Entry>): (text: string)
    ensures text == [] <==> board == []
  {
    Join(FormatLines(board), '\n')
  }

  /** A board whose text reads back as itself: no name holds a comma or a
      newline, and the first name does not start with white space (the
      trim of the whole text would eat it). */
  predicate Storable(board: seq<Entry>) {
    && (forall e :: e in board ==> ',' !in e.name && '\n' !in e.name)
    && TopNameTrimmed(board)
  }

  /** The first name, if any, does not start with white space. */
  predicate TopNameTrimmed(board: seq<Entry>) {
    board != [] && board[0].name != [] ==> !IsSpace(board[0].name[0])
  }

  /** A formatted entry splits at its comma into the name and the score text. */
  lemma EntryLine(e: Entry)
    requires ',' !in e.name && '\n' !in e.name
    ensures '\n' !in FormatEntry(e) && NotBlank(FormatEntry(e))
    ensures ParseLine(FormatEntry(e)) == e
  {
    var line, digits := FormatEntry(e), IntText(e.score);
    assert ',' !in digits && '\n' !in digits by {
      assert forall i :: 0 <= i < |digits| ==> digits[i] != ',' && digits[i] != '\n';
    }
    assert line == e.name + [','] + digits + [];
    LineFields(e.name, digits, []);
    assert digits + [] == digits;
    ParseIntText(e.score, []);
    assert line[|e.name|] == ',';
    TrimBlank(line);
  }

  lemma {:induction false} NonBlankKeepsAll(lines: seq<string>)
    requires forall i :: 0 <= i < |lines| ==> NotBlank(lines[i])
    ensures NonBlank(lines) == lines
  {
    if lines != [] {
      NonBlankKeepsAll(lines[1..]);
      assert [lines[0]] + lines[1..] == lines;
    }
  }

  /** The text of a board starts with the first name, or with its comma when that name is empty. */
  lemma FormatStart(board: seq<Entry>)
    requires board != []
    requires board[0].name != [] ==> !IsSpace(board[0].name[0])
    ensures board[0].name + [','] <= Format(board)
    ensures Format(board) != [] && !IsSpace(Format(board)[0])
  {
    var lines := FormatLines(board);
    JoinEnds(lines, '\n');
    var first := lines[0];
    assert first == board[0].name + [','] + IntText(board[0].score);
    if board[0].name == [] {
      assert first[0] == ',';
    } else {
      assert first[0] == board[0].name[0];
    }
  }

  /** The text of a board ends with the last score's final digit. */
  lemma FormatEnd(board: seq<Entry>)
    requires board != []
    ensures var text := Format(board); text != [] && IsDigit(text[|text| - 1]) && !IsSpace(text[|text| - 1])
  {
    var lines, last := FormatLines(board), FormatEntry(board[|board| - 1]);
    assert lines[|lines| - 1] == last;
    EntryEndsInDigit(board[|board| - 1]);
    JoinEnds(lines, '\n');
    SuffixLast(Join(lines, '\n'), last);
  }

  /** A formatted entry ends with the last digit of its score. */
  lemma EntryEndsInDigit(e: Entry)
    ensures var line := FormatEntry(e); line != [] && IsDigit(line[|line| - 1]) && !IsSpace(line[|line| - 1])
  {
    var digits := IntText(e.score);
    assert FormatEntry(e) == (e.name + [',']) + digits;
  }

  /** The text of a storable board neither starts nor ends with white space. */
  lemma FormatTrimmed(board: seq<Entry>)
    requires Storable(board)
    ensures Trim(Format(board)) == Format(board)
  {
    if board != [] {
      FormatStart(board);
      FormatEnd(board);
    } else {
      assert Format(board) == [];
    }
    TrimUnchanged(Format(board));
  }

  /** The lines of a storable board's text are its formatted entries, none blank. */
  lemma FormatLinesReadBack(board: seq<Entry>)
    requires Storable(board)
    ensures NonBlank(Split(Format(board), '\n')) == FormatLines(board)
    ensures forall i :: 0 <= i < |board| ==> ParseLine(FormatLines(board)[i]) == board[i]
  {
    var lines := FormatLines(board);
    forall i | 0 <= i < |board|
      ensures '\n' !in lines[i] && NotBlank(lines[i]) && ParseLine(lines[i]) == board[i]
    {
      assert board[i] in board;
      EntryLine(board[i]);
    }
    if board == [] {
      assert Format(board) == [];
      assert Split([], '\n') == [[]];
      assert Trim([]) == [];
    } else {
      SplitJoin(lines, '\n');
      NonBlankKeepsAll(lines);
    }
  }

  /** Round trip: parsing the formatted text of a storable board gives the board back. */
  lemma ParseFormat(board: seq<Entry>)
    requires Storable(board)
    ensures Parse(Format(board)) == board
  {
    FormatTrimmed(board);
    FormatLinesReadBack(board);
  }

  // ---------------------------------------------------------------- sorting

  /** Highest score first. */
  predicate SortedDesc(s: seq<Entry>) {
    forall i, j :: 0 <= i < j < |s| ==> s[i].score >= s[j].score
  }

  /** The entries of `s` that score exactly `v`, in their order in `s`. */
  function WithScore(s: seq<Entry>, v: int): seq<Entry> {
    if s == [] then []
    else (if s[0].score == v then [s[0]] else []) + WithScore(s[1..], v)
  }

  lemma {:induction false} WithScoreAppend(a: seq<Entry>, b: seq<Entry>, v: int)
    ensures WithScore(a + b, v) == WithScore(a, v) + WithScore(b, v)
  {
    if a == [] {
      assert a + b == b;
    } else {
      var head := if a[0].score == v then [a[0]] else [];
      calc {
        WithScore(a + b, v);
        { assert (a + b)[0] == a[0]; assert (a + b)[1..] == a[1..] + b; }
        head + WithScore(a[1..] + b, v);
        { WithScoreAppend(a[1..], b, v); }
        head + (WithScore(a[1..], v) + WithScore(b, v));
        (head + WithScore(a[1..], v)) + WithScore(b, v);
      }
    }
  }

  lemma {:induction false} WithScoreNone(s: seq<Entry>, v: int)
    requires forall i :: 0 <= i < |s| ==> s[i].score != v
    ensures WithScore(s, v) == []
  {
    if s != [] {
      WithScoreNone(s[1..], v);
    }
  }

  /** A descending list whose first entry scores below `v` has no entry of score `v`. */
  lemma SortedBelow(s: seq<Entry>, v: int)
    requires SortedDesc(s) && s != [] && s[0].score < v
    ensures WithScore(s, v) == []
  {
    WithScoreNone(s, v);
  }

  lemma {:induction false} WithScoreMember(s: seq<Entry>, v: int, x: Entry)
    requires x in WithScore(s, v)
    ensures x in s && x.score == v
  {
    if s != [] && !(s[0].score == v && x == s[0]) {
      WithScoreMember(s[1..], v, x);
    }
  }

  /** Places `e` after every entry that scores at least as much: the step of
      a stable insertion sort. */
  function Insert(e: Entry, s: seq<Entry>): (r: seq<Entry>)
    ensures |r| == |s| + 1
  {
    if s == [] then [e]
    else if s[0].score >= e.score then [s[0]] + Insert(e, s[1..])
    else [e] + s
  }

  /** Inserting adds exactly the one entry. */
  lemma {:induction false} InsertPermutes(e: Entry, s: seq<Entry>)
    ensures multiset(Insert(e, s)) == multiset(s) + multiset{e}
  {
    if s != [] && s[0].score >= e.score {
      InsertPermutes(e, s[1..]);
      assert s == [s[0]] + s[1..];
    }
  }

  /** Every entry of an insertion is the new one or one of the list's. */
  lemma {:induction false} InsertFrom(e: Entry, s: seq<Entry>, x: Entry)
    requires x in Insert(e, s)
    ensures x == e || x in s
  {
    if s != [] && s[0].score >= e.score && x != s[0] {
      assert x in Insert(e, s[1..]);
      InsertFrom(e, s[1..], x);
    }
  }

  /** Inserting into a list sorted highest first keeps it sorted. */
  lemma {:induction false} InsertSorted(e: Entry, s: seq<Entry>)
    requires SortedDesc(s)
    ensures SortedDesc(Insert(e, s))
  {
    if s != [] && s[0].score >= e.score {
      var rest := Insert(e, s[1..]);
      InsertSorted(e, s[1..]);
      forall x | x in rest ensures x.score <= s[0].score {
        InsertFrom(e, s[1..], x);
        if x != e {
          assert x in s;
          SortedFirstIsHighest(s, x);
        }
      }
      var r := [s[0]] + rest;
      forall i, j | 0 <= i < j < |r| ensures r[i].score >= r[j].score {
        assert r[j] == rest[j - 1];
        assert r[j] in rest;
        if i > 0 {
          assert r[i] == rest[i - 1];
        }
      }
    }
  }

  /** Inserting into a sorted list puts the new entry after the entries of
      equal score and leaves the order of every score's entries alone. */
  lemma {:induction false} InsertStable(e: Entry, s: seq<Entry>, v: int)
    requires SortedDesc(s)
    ensures WithScore(Insert(e, s), v) == WithScore(s, v) + (if e.score == v then [e] else [])
  {
    if s == [] {
    } else if s[0].score >= e.score {
      var x, rest := s[0], s[1..];
      var head := if x.score == v then [x] else [];
      InsertStable(e, rest, v);
      ConsAppend(s, []);
      WithScoreCons(x, rest, v);
      WithScoreCons(x, Insert(e, rest), v);
      AppendAssoc(head, WithScore(rest, v), if e.score == v then [e] else []);
    } else {
      WithScoreCons(e, s, v);
      if v == e.score {
        SortedBelow(s, v);
      }
    }
  }

  lemma WithScoreCons(x: Entry, rest: seq<Entry>, v: int)
    ensures WithScore([x] + rest, v) == (if x.score == v then [x] else []) + WithScore(rest, v)
  {
    assert ([x] + rest)[1..] == rest;
  }

  /** The model of `scores.sort((a, b) => b.score - a.score)`: a stable
      sort, highest score first. Each entry in turn is inserted after the
      earlier entries that score at least as much. */
  function SortDesc(s: seq<Entry>): (r: seq<Entry>)
    ensures |r| == |s|
    ensures SortedDesc(r)
  {
    if s == [] then []
    else
      var init, last := s[..|s| - 1], s[|s| - 1];
      assert s == init + [last];
      var sorted := SortDesc(init);
      InsertSorted(last, sorted);
      Insert(last, sorted)
  }

  /** The sort is a permutation of its input. */
  lemma {:induction false} SortDescPermutes(s: seq<Entry>)
    ensures multiset(SortDesc(s)) == multiset(s)
  {
    if s != [] {
      var init, last := s[..|s| - 1], s[|s| - 1];
      assert s == init + [last];
      SortDescPermutes(init);
      InsertPermutes(last, SortDesc(init));
    }
  }

  /** The sort is stable: for every score, the entries with that score come
      out in the order they went in. */
  lemma {:induction false} SortDescStable(s: seq<Entry>, v: int)
    ensures WithScore(SortDesc(s), v) == WithScore(s, v)
  {
    if s != [] {
      var init, last := s[..|s| - 1], s[|s| - 1];
      assert s == init + [last];
      SortDescStable(init, v);
      InsertStable(last, SortDesc(init), v);
      WithScoreAppend(init, [last], v);
      assert WithScore([last], v) == if last.score == v then [last] else [];
    }
  }

  lemma SortedFirstIsHighest(s: seq<Entry>, x: Entry)
    requires SortedDesc(s) && x in s
    ensures s[0].score >= x.score
  {
  }

  lemma WithScoreOfFirst(s: seq<Entry>)
    ensures s != [] ==> WithScore(s, s[0].score) != []
  {
  }

  /** Stability pins the result down: two lists sorted highest first with the
      same entries of each score in the same order are the same list. So any
      sort meeting the standard's requirements gives exactly SortDesc. */
  lemma {:induction false} StableSortUnique(r: seq<Entry>, t: seq<Entry>)
    requires SortedDesc(r) && SortedDesc(t)
    requires forall v :: WithScore(r, v) == WithScore(t, v)
    ensures r == t
  {
    if r == [] && t != [] {
      WithScoreOfFirst(t);
      assert false;
    } else if r != [] && t == [] {
      WithScoreOfFirst(r);
      assert false;
    } else if r != [] && t != [] {
      var m, n := r[0].score, t[0].score;
      assert r[0] in WithScore(t, m) by { assert WithScore(r, m)[0] == r[0]; }
      WithScoreMember(t, m, r[0]);
      assert t[0] in WithScore(r, n) by { assert WithScore(t, n)[0] == t[0]; }
      WithScoreMember(r, n, t[0]);
      assert m == n;
      assert r[0] == t[0] by {
        assert WithScore(r, m)[0] == r[0];
        assert WithScore(t, m)[0] == t[0];
      }
      forall v ensures WithScore(r[1..], v) == WithScore(t[1..], v) {
        var head := if m == v then [r[0]] else [];
        var wr, wt := WithScore(r, v), WithScore(t, v);
        assert wr == head + WithScore(r[1..], v);
        assert wt == head + WithScore(t[1..], v);
        assert wr[|head|..] == WithScore(r[1..], v);
        assert wt[|head|..] == WithScore(t[1..], v);
      }
      StableSortUnique(r[1..], t[1..]);
      assert r == [r[0]] + r[1..] && t == [t[0]] + t[1..];
    }
  }

  /** Any list that is sorted highest first and keeps the order of each
      score's entries is the stable sort of its input. */
  lemma StableSortIsSortDesc(s: seq<Entry>, r: seq<Entry>)
    requires SortedDesc(r)
    requires forall v :: WithScore(r, v) == WithScore(s, v)
    ensures r == SortDesc(s)
  {
    forall v ensures WithScore(SortDesc(s), v) == WithScore(s, v) {
      SortDescStable(s, v);
    }
    StableSortUnique(r, SortDesc(s));
  }

  /** A list already sorted highest first is left as it is. */
  lemma SortDescOfSorted(s: seq<Entry>)
    requires SortedDesc(s)
    ensures SortDesc(s) == s
  {
    StableSortIsSortDesc(s, s);
  }

  // ----------------------------------------------------------------- merging

  /** `slice(0, n)`. */
  function Take(s: seq<Entry>, n: nat): (r: seq<Entry>)
    ensures r <= s
    ensures |r| == if |s| <= n then |s| else n
  {
    if |s| <= n then s else s[..n]
  }

  /** `scores.push(e); scores.sort(...); scores = scores.slice(0, 10)`. */
  function Merge(existing: seq<Entry>, e: Entry): (r: seq<Entry>)
    ensures |r| == if |existing| < Capacity then |existing| + 1 else Capacity
    ensures |r| <= Capacity
    ensures SortedDesc(r)
  {
    Take(SortDesc(existing + [e]), Capacity)
  }

  /** Every entry on the merged board was on the stored board or is the new one. */
  lemma MergeDrawsFrom(existing: seq<Entry>, e: Entry)
    ensures multiset(Merge(existing, e)) <= multiset(existing) + multiset{e}
  {
    var sorted := SortDesc(existing + [e]);
    var r := Merge(existing, e);
    SortDescPermutes(existing + [e]);
    assert sorted == r + sorted[|r|..];
    assert multiset(sorted) == multiset(r) + multiset(sorted[|r|..]);
  }

  /** How many entries of `s` score at least `v`. */
  function CountAtLeast(s: seq<Entry>, v: int): (c: nat)
    ensures c <= |s|
  {
    if s == [] then 0 else (if s[0].score >= v then 1 else 0) + CountAtLeast(s[1..], v)
  }

  lemma {:induction false} CountAtLeastAppend(a: seq<Entry>, b: seq<Entry>, v: int)
    ensures CountAtLeast(a + b, v) == CountAtLeast(a, v) + CountAtLeast(b, v)
  {
    if a == [] {
      assert a + b == b;
    } else {
      CountAtLeastAppend(a[1..], b, v);
      assert (a + b)[0] == a[0];
      assert (a + b)[1..] == a[1..] + b;
    }
  }

  lemma {:induction false} CountAtLeastInsert(e: Entry, t: seq<Entry>, v: int)
    ensures CountAtLeast(Insert(e, t), v) == CountAtLeast(t, v) + (if e.score >= v then 1 else 0)
  {
    if t != [] && t[0].score >= e.score {
      CountAtLeastInsert(e, t[1..], v);
    }
  }

  /** Sorting does not change how many entries reach a score. */
  lemma {:induction false} CountAtLeastSort(s: seq<Entry>, v: int)
    ensures CountAtLeast(SortDesc(s), v) == CountAtLeast(s, v)
  {
    if s != [] {
      var init, last := s[..|s| - 1], s[|s| - 1];
      assert s == init + [last];
      assert SortDesc(s) == Insert(last, SortDesc(init));
      CountAtLeastSort(init, v);
      CountAtLeastInsert(last, SortDesc(init), v);
      CountAtLeastAppend(init, [last], v);
      assert CountAtLeast([last], v) == if last.score >= v then 1 else 0;
    }
  }

  /** In a list sorted highest first, Insert puts `e` right after the
      entries scoring at least `e.score` and right before those scoring less. */
  lemma {:induction false} InsertPosition(e: Entry, t: seq<Entry>)
    requires SortedDesc(t)
    ensures var k := CountAtLeast(t, e.score);
            && k <= |t| && Insert(e, t) == t[..k] + [e] + t[k..]
            && (forall i :: 0 <= i < k ==> t[i].score >= e.score)
            && (forall i :: k <= i < |t| ==> t[i].score < e.score)
  {
    SortedCut(t, e.score);
    if t != [] {
      var k := CountAtLeast(t, e.score);
      if t[0].score < e.score {
        SortedNoneAtLeast(t, e.score);
        assert t[..k] == [] && t[k..] == t;
      } else {
        InsertPosition(e, t[1..]);
        var k' := CountAtLeast(t[1..], e.score);
        assert k == k' + 1;
        assert Insert(e, t) == [t[0]] + Insert(e, t[1..]);
        SlicesAfterHead(t, e, k');
      }
    }
  }

  lemma SlicesAfterHead(t: seq<Entry>, e: Entry, k: nat)
    requires k < |t|
    ensures t[..k + 1] + [e] + t[k + 1..] == [t[0]] + (t[1..][..k] + [e] + t[1..][k..])
  {
    assert t[..k + 1] == [t[0]] + t[1..][..k];
    assert t[k + 1..] == t[1..][k..];
  }

  /** A descending list whose first entry scores below `v` has no entry scoring at least `v`. */
  lemma SortedNoneAtLeast(t: seq<Entry>, v: int)
    requires SortedDesc(t) && t != [] && t[0].score < v
    ensures CountAtLeast(t, v) == 0
  {
    forall x | x in t ensures x.score < v {
      SortedFirstIsHighest(t, x);
    }
    CountAtLeastNone(t, v);
  }

  /** In a descending list, the `CountAtLeast(t, v)` entries scoring at
      least `v` come first and all the others score less. */
  lemma {:induction false} SortedCut(t: seq<Entry>, v: int)
    requires SortedDesc(t)
    ensures var k := CountAtLeast(t, v);
            && (forall i :: 0 <= i < k ==> t[i].score >= v)
            && (forall i :: k <= i < |t| ==> t[i].score < v)
  {
    if t != [] {
      var k := CountAtLeast(t, v);
      if t[0].score < v {
        CountAtLeastNone(t, v);
      } else {
        SortedCut(t[1..], v);
        forall i | 0 < i < |t| ensures t[i] == t[1..][i - 1] {}
      }
    }
  }

  lemma {:induction false} CountAtLeastNone(s: seq<Entry>, v: int)
    requires forall x :: x in s ==> x.score < v
    ensures CountAtLeast(s, v) == 0
  {
    if s != [] {
      CountAtLeastNone(s[1..], v);
    }
  }

  lemma {:induction false} CountAtLeastAll(s: seq<Entry>, v: int)
    requires forall i :: 0 <= i < |s| ==> s[i].score >= v
    ensures CountAtLeast(s, v) == |s|
  {
    if s != [] {
      CountAtLeastAll(s[1..], v);
    }
  }

  /** Where the new entry lands: after the existing entries that score at
      least as much (the equal ones included, since the sort is stable and
      the new entry was pushed last), ahead of all lower ones. */
  lemma MergePlacement(existing: seq<Entry>, e: Entry)
    ensures var sorted, k := SortDesc(existing), CountAtLeast(existing, e.score);
            && k <= |existing|
            && Merge(existing, e) == Take(sorted[..k] + [e] + sorted[k..], Capacity)
  {
    var s := existing + [e];
    assert s[..|s| - 1] == existing;
    CountAtLeastSort(existing, e.score);
    InsertPosition(e, SortDesc(existing));
  }

  /** The new entry survives exactly when fewer than ten existing entries
      score at least as much; then it sits at that position. Otherwise the
      result is the first ten of the sorted existing list. */
  lemma NewEntrySurvival(existing: seq<Entry>, e: Entry)
    ensures var k, r := CountAtLeast(existing, e.score), Merge(existing, e);
            && (k < Capacity ==> k < |r| && r[k] == e && r[..k] == SortDesc(existing)[..k])
            && (k >= Capacity ==> r == SortDesc(existing)[..Capacity])
  {
    var sorted, k := SortDesc(existing), CountAtLeast(existing, e.score);
    MergePlacement(existing, e);
    var r := Merge(existing, e);
    assert r == Take(sorted[..k] + [e] + sorted[k..], Capacity);
    TakeWithInserted(sorted, e, k);
    if k < Capacity {
      assert k < |r| && r[k] == e && r[..k] == sorted[..k];
    } else {
      assert r == sorted[..Capacity];
    }
  }

  lemma TakeWithInserted(sorted: seq<Entry>, e: Entry, k: nat)
    requires k <= |sorted|
    ensures var r := Take(sorted[..k] + [e] + sorted[k..], Capacity);
            && (k < Capacity ==> k < |r| && r[k] == e && r[..k] == sorted[..k])
            && (k >= Capacity ==> r == sorted[..Capacity])
  {
    var full := sorted[..k] + [e] + sorted[k..];
    assert full[k] == e;
    assert full[..k] == sorted[..k];
    if k >= Capacity {
      assert full[..Capacity] == sorted[..Capacity];
    }
  }

  /** A full board, already sorted, with no entry below the new score,
      comes back unchanged. */
  lemma FullSortedBoardUnchanged(existing: seq<Entry>, e: Entry)
    requires |existing| == Capacity && SortedDesc(existing)
    requires forall i :: 0 <= i < |existing| ==> existing[i].score >= e.score
    ensures Merge(existing, e) == existing
  {
    CountAtLeastAll(existing, e.score);
    NewEntrySurvival(existing, e);
    SortDescOfSorted(existing);
  }

  /** Stability of the whole merge: among entries of one score, the existing
      ones keep their stored order and come before the new entry. */
  lemma MergeStable(existing: seq<Entry>, e: Entry, v: int)
    ensures WithScore(Merge(existing, e), v) <= WithScore(existing, v) + (if e.score == v then [e] else [])
  {
    var sorted := SortDesc(existing + [e]);
    var r := Merge(existing, e);
    assert r == Take(sorted, Capacity);
    var tail := sorted[|r|..];
    assert sorted == r + tail;
    WithScoreAppend(r, tail, v);
    SortDescStable(existing + [e], v);
    WithScoreAppend(existing, [e], v);
    assert WithScore([e], v) == if e.score == v then [e] else [];
  }

  /** The text written after a merge reads back as the merged board, as long
      as the new name has no comma or newline and the top name does not
      start with white space. */
  lemma WrittenBoardReloads(text: string, e: Entry)
    requires ',' !in e.name && '\n' !in e.name
    requires TopNameTrimmed(Merge(Parse(text), e))
    ensures Parse(Format(Merge(Parse(text), e))) == Merge(Parse(text), e)
  {
    var existing := Parse(text);
    var r := Merge(existing, e);
    MergeDrawsFrom(existing, e);
    forall x | x in r ensures ',' !in x.name && '\n' !in x.name {
      assert x in multiset(r);
      assert x in multiset(existing) + multiset{e};
      assert x == e || x in existing;
    }
    ParseFormat(r);
  }
}
