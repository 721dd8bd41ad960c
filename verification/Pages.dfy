/** Keyset pagination (parseCursor, nextCursor and the two list queries in
    internal/api/server.go). A table is the set of rows a query's WHERE clause ranges
    over: all requests, or those of one endpoint. */
module Pages {
  import opened Text
  import opened Timestamps

  datatype Row = Row(at: string, id: string)

  // ---------------------------------------------------------------- row order

  /** (received_at, id) in the order the queries compare them. */
  predicate Before(a: Row, b: Row)
  {
    Less(a.at, b.at) || (a.at == b.at && Less(a.id, b.id))
  }

  lemma BeforeTotal(a: Row, b: Row)
    ensures Before(a, b) || a == b || Before(b, a)
    ensures !(Before(a, b) && Before(b, a)) && !Before(a, a)
  {
    LessTotal(a.at, b.at);
    LessTotal(a.id, b.id);
  }

  lemma BeforeTransitive(a: Row, b: Row, c: Row)
    requires Before(a, b) && Before(b, c)
    ensures Before(a, c)
  {
    if Less(a.at, b.at) && Less(b.at, c.at) { LessTransitive(a.at, b.at, c.at); }
    if Less(a.id, b.id) && Less(b.id, c.id) { LessTransitive(a.id, b.id, c.id); }
  }

  ghost predicate Descending(s: seq<Row>) { forall i, j | 0 <= i < j < |s| :: Before(s[j], s[i]) }

  ghost predicate IsLast(s: set<Row>, m: Row) { m in s && forall r | r in s && r != m :: Before(r, m) }

  lemma LastExists(s: set<Row>) returns (m: Row)
    requires s != {}
    ensures IsLast(s, m)
    decreases |s|
  {
    m :| m in s;
    if s != {m} {
      var n := LastExists(s - {m});
      BeforeTotal(m, n);
      if Before(m, n) {
        m := n;
      } else {
        forall r | r in s && r != m ensures Before(r, m) {
          if r != n { BeforeTransitive(r, n, m); }
        }
      }
    }
  }

  /** ORDER BY received_at DESC, id DESC. */
  ghost function Sorted(s: set<Row>): (rows: seq<Row>)
    ensures Descending(rows) && |rows| == |s| && forall r :: r in rows <==> r in s
    decreases |s|
  {
    if s == {} then [] else
    var m := LastRow(s);
    [m] + Sorted(s - {m})
  }

  ghost function LastRow(s: set<Row>): (m: Row)
    requires s != {}
    ensures IsLast(s, m)
  {
    assert exists m :: IsLast(s, m) by { var m := LastExists(s); }
    var m :| IsLast(s, m); m
  }

  /** Two descending enumerations of the same rows are the same list. */
  lemma {:induction false} DescendingUnique(a: seq<Row>, b: seq<Row>)
    requires Descending(a) && Descending(b) && forall r :: r in a <==> r in b
    ensures a == b
  {
    assert |a| > 0 ==> a[0] in a;
    assert |b| > 0 ==> b[0] in b;
    if a != [] && b != [] {
      var i :| 0 <= i < |b| && b[i] == a[0];
      var j :| 0 <= j < |a| && a[j] == b[0];
      BeforeTotal(a[0], b[0]);
      assert a[0] == b[0];
      TailMembers(a);
      TailMembers(b);
      DescendingUnique(a[1..], b[1..]);
      assert a == [a[0]] + a[1..] && b == [b[0]] + b[1..];
    }
  }

  lemma TailMembers(a: seq<Row>)
    requires a != [] && Descending(a)
    ensures forall r :: r in a[1..] <==> r in a && r != a[0]
  {
    BeforeTotal(a[0], a[0]);
    assert a == [a[0]] + a[1..];
  }

  // ---------------------------------------------------------------- cursors

  const START: Row := Row(SENTINEL, "~")

  function PrintCursor(r: Row): string { r.at + "|" + r.id }

  /** None: 400 "cursor must be received_at|id". */
  function ParseCursor(v: string): Option<Row>
  {
    if v == "" then Some(START) else
    match Cut(v, '|')
    case None => None
    case Some((at, id)) => if at == "" || id == "" then None else Some(Row(at, id))
  }

  /** None: 400 "limit must be 1-100". */
  function ParseLimit(v: string): (n: Option<nat>)
    ensures n.Some? ==> 1 <= n.value <= 100
  {
    if v == "" then Some(50) else
    match ParseInt(v)
    case None => None
    case Some(n) => if n < 1 || n > 100 then None else Some(n)
  }

  /** A row whose cursor text can be parsed; the id may contain a bar. */
  predicate Printable(r: Row) { '|' !in r.at && r.at != "" && r.id != "" }

  lemma CursorRoundTrip(r: Row)
    requires Printable(r)
    ensures PrintCursor(r) != "" && ParseCursor(PrintCursor(r)) == Some(r)
  {
    assert PrintCursor(r) == r.at + ['|'] + r.id;
    CutAt(r.at, '|', r.id);
  }

  /** Printing the position a cursor text stands for gives the text back. */
  lemma CursorPrintParse(v: string)
    requires v != "" && ParseCursor(v).Some?
    ensures PrintCursor(ParseCursor(v).value) == v
  {
    var i := Find(v, '|');
    assert v == v[..i] + ['|'] + v[i + 1..];
  }

  /** Accepted cursors are the texts of printable positions, and the empty one. */
  lemma CursorAccepted(v: string)
    ensures ParseCursor("") == Some(Row("9999-12-31T23:59:59.999999999Z", "~"))
    ensures v != "" ==>
              (ParseCursor(v).Some? <==> exists r: Row :: Printable(r) && v == r.at + "|" + r.id)
  {
    StartText();
    if v != "" && ParseCursor(v).Some? {
      CursorPrintParse(v);
      var r := ParseCursor(v).value;
      assert Printable(r) && v == r.at + "|" + r.id;
    }
    if r: Row :| Printable(r) && v == r.at + "|" + r.id {
      CursorRoundTrip(r);
      assert PrintCursor(r) == v;
    }
  }

  lemma StartText()
    ensures SENTINEL == "9999-12-31T23:59:59.999999999Z"
  {
  }

  /** The page size asked for: an integer of 1 to 100, 50 where none is given. */
  lemma PageSizeIs(sign: string, digits: string)
    requires IsSign(sign) && digits != "" && DecimalDigits(digits)
    ensures ParseLimit("") == Some(50)
    ensures ParseLimit(sign + digits)
            == if sign != "-" && 1 <= PlaceValue(digits) <= 100 then Some(PlaceValue(digits)) else None
  {
    ParseIntMeans(sign, digits);
    assert (sign + digits)[|sign|..] == digits;
  }

  lemma PageSizeRefused(v: string)
    requires v != "" && forall sign, digits | IsSign(sign) && digits != "" && DecimalDigits(digits) :: v != sign + digits
    ensures ParseLimit(v) == None
  {
    ParseIntRefuses(v);
  }

  /** Byte order of texts: the first difference decides, and a proper prefix comes first. */
  ghost predicate BytesBelow(a: string, b: string)
  {
    || (|a| < |b| && a == b[..|a|])
    || exists i | 0 <= i < |a| && i < |b| :: a[..i] == b[..i] && a[i] < b[i]
  }

  /** Older rows come before newer ones, and among rows of one time the id decides. */
  lemma BeforeIff(a: Row, b: Row)
    ensures Before(a, b) <==> BytesBelow(a.at, b.at) || (a.at == b.at && BytesBelow(a.id, b.id))
  {
    LessIff(a.at, b.at);
    LessIff(a.id, b.id);
  }

  // ---------------------------------------------------------------- one page

  ghost function Eligible(table: set<Row>, c: Row): set<Row> { set r | r in table && Before(r, c) }

  /** SELECT ... WHERE (received_at, id) < cursor ORDER BY ... DESC LIMIT n. */
  ghost function Query(table: set<Row>, c: Row, n: nat): seq<Row>
  {
    var rows := Sorted(Eligible(table, c));
    if |rows| <= n then rows else rows[..n]
  }

  datatype Page = Page(rows: seq<Row>, next: string)

  function NextCursor(rows: seq<Row>, limit: nat): Page
    requires limit >= 1
  {
    if |rows| > limit then Page(rows[..limit], PrintCursor(rows[limit - 1])) else Page(rows, "")
  }

  /** The handler: copy the fetched rows one by one, then trim to the page. */
  method List(rows: seq<Row>, limit: nat) returns (page: Page)
    requires limit >= 1
    ensures page == NextCursor(rows, limit)
  {
    var out := [];
    for i := 0 to |rows|
      invariant out == rows[..i]
    {
      out := out + [rows[i]];
    }
    assert rows[..|rows|] == rows;
    page := NextCursor(out, limit);
  }

  ghost function Fetch(table: set<Row>, c: Row, limit: nat): Page
    requires limit >= 1
  {
    NextCursor(Query(table, c, limit + 1), limit)
  }

  /** A page holds the first eligible rows; what it leaves out is exactly what follows its
      own cursor. */
  ghost predicate GoodPage(table: set<Row>, c: Row, limit: nat, p: Page)
  {
    && Descending(p.rows) && (forall r | r in p.rows :: r in table && Before(r, c))
    && (p.next == "" ==> forall r | r in table && Before(r, c) :: r in p.rows)
    && (p.next != "" ==>
          && |p.rows| == limit >= 1
          && ParseCursor(p.next) == Some(p.rows[limit - 1])
          && forall r | r in table && Before(r, c) && r !in p.rows :: Before(r, p.rows[limit - 1]))
  }

  lemma FetchIs(table: set<Row>, c: Row, limit: nat)
    requires limit >= 1
    ensures var all := Sorted(Eligible(table, c));
            Fetch(table, c, limit)
            == if |all| <= limit then Page(all, "") else Page(all[..limit], PrintCursor(all[limit - 1]))
  {
    var all := Sorted(Eligible(table, c));
    if |all| > limit + 1 {
      assert all[..limit + 1][..limit] == all[..limit];
    }
  }

  lemma PageExact(table: set<Row>, c: Row, limit: nat)
    requires limit >= 1 && forall r | r in table :: Printable(r)
    ensures GoodPage(table, c, limit, Fetch(table, c, limit))
  {
    FetchIs(table, c, limit);
    var all := Sorted(Eligible(table, c));
    assert forall r :: r in all <==> r in table && Before(r, c);
    if |all| > limit {
      assert all[limit - 1] in all;
      CursorRoundTrip(all[limit - 1]);
      RestIsBelow(all, limit);
    }
  }

  lemma RestIsBelow(all: seq<Row>, limit: nat)
    requires Descending(all) && 1 <= limit <= |all|
    ensures forall r | r in all && r !in all[..limit] :: Before(r, all[limit - 1])
  {
    assert all == all[..limit] + all[limit..];
    forall r | r in all[limit..] ensures Before(r, all[limit - 1]) {
      var i :| 0 <= i < |all[limit..]| && all[limit..][i] == r;
      assert all[limit + i] == r;
    }
  }

  /** One request gets the first rows in order that lie before the cursor, as many as the size
      asked for, and is refused when its size or its cursor is. */
  lemma AnswerHolds(table: set<Row>, limitText: string, cursor: string)
    ensures Answer(table, limitText, cursor).None? <==> ParseLimit(limitText) == None || ParseCursor(cursor) == None
    ensures Answer(table, limitText, cursor).Some? ==>
              var n, c, rows := ParseLimit(limitText).value, ParseCursor(cursor).value, Answer(table, limitText, cursor).value.rows;
              var all := Sorted(set r | r in table && Before(r, c));
              rows <= all && |rows| == if |all| <= n then |all| else n
  {
    if ParseLimit(limitText).Some? && ParseCursor(cursor).Some? {
      FetchIs(table, ParseCursor(cursor).value, ParseLimit(limitText).value);
    }
  }

  // ---------------------------------------------------------------- walking

  datatype Trip = Trip(rows: seq<Row>, done: bool)

  /** One list request; None: 400. */
  ghost function Answer(table: set<Row>, limitText: string, cursor: string): Option<Page>
  {
    match ParseLimit(limitText)
    case None => None
    case Some(limit) =>
      match ParseCursor(cursor)
      case None => None
      case Some(c) => Some(Fetch(table, c, limit))
  }

  /** A client follows next_cursor; request i sees `tables[i]`. It is done when a page
      comes without a cursor. None: a request was refused. */
  ghost function Walk(tables: seq<set<Row>>, cursor: string, limitText: string): Option<Trip>
  {
    if tables == [] then Some(Trip([], false)) else
    match Answer(tables[0], limitText, cursor)
    case None => None
    case Some(p) =>
      if p.next == "" then Some(Trip(p.rows, true)) else
      match Walk(tables[1..], p.next, limitText)
      case None => None
      case Some(rest) => Some(Trip(p.rows + rest.rows, rest.done))
  }

  ghost predicate AllPrintable(tables: seq<set<Row>>)
  {
    forall i | 0 <= i < |tables| :: forall r | r in tables[i] :: Printable(r)
  }

  /** What a finished or unfinished walk guarantees while rows come and go. */
  ghost predicate Sweeps(tables: seq<set<Row>>, c: Row, t: Trip)
  {
    && Descending(t.rows)
    && (forall r | r in t.rows :: Before(r, c) && exists i | 0 <= i < |tables| :: r in tables[i])
    && (t.done ==> forall r | Before(r, c) && (forall i | 0 <= i < |tables| :: r in tables[i]) :: r in t.rows)
  }

  lemma JoinDescending(a: seq<Row>, b: seq<Row>)
    requires Descending(a) && Descending(b) && a != []
    requires forall r | r in b :: Before(r, a[|a| - 1])
    ensures Descending(a + b)
  {
    var last := a[|a| - 1];
    forall i, j | 0 <= i < |a| && 0 <= j < |b| ensures Before(b[j], a[i]) {
      assert b[j] in b;
      if i < |a| - 1 { BeforeTransitive(b[j], last, a[i]); }
    }
  }

  lemma SweepsStep(tables: seq<set<Row>>, c: Row, limit: nat, p: Page, rest: Trip)
    requires tables != [] && GoodPage(tables[0], c, limit, p) && p.next != ""
    requires Sweeps(tables[1..], p.rows[limit - 1], rest)
    ensures Sweeps(tables, c, Trip(p.rows + rest.rows, rest.done))
  {
    var last := p.rows[limit - 1];
    JoinDescending(p.rows, rest.rows);
    assert last in p.rows;
    forall r | r in rest.rows ensures Before(r, c) && exists i | 0 <= i < |tables| :: r in tables[i] {
      BeforeTransitive(r, last, c);
      var i :| 0 <= i < |tables[1..]| && r in tables[1..][i];
      assert r in tables[i + 1];
    }
    forall r | Before(r, c) && (forall i | 0 <= i < |tables| :: r in tables[i]) && r !in p.rows
      ensures rest.done ==> r in rest.rows
    {
      assert r in tables[0];
      assert forall i | 0 <= i < |tables[1..]| :: tables[1..][i] == tables[i + 1];
    }
  }

  /** Main result: over tables that change between pages a walk is refused only for its own
      limit or first cursor; no row repeats, the order never breaks, and a finished walk has
      shown every row that was there throughout. */
  lemma {:induction false} WalkWhileChanging(tables: seq<set<Row>>, cursor: string, limitText: string)
    requires AllPrintable(tables)
    ensures Walk(tables, cursor, limitText).Some?
            <==> tables == [] || (ParseLimit(limitText).Some? && ParseCursor(cursor).Some?)
    ensures ParseLimit(limitText).Some? && ParseCursor(cursor).Some? ==>
              Sweeps(tables, ParseCursor(cursor).value, Walk(tables, cursor, limitText).value)
  {
    if tables != [] && ParseLimit(limitText).Some? && ParseCursor(cursor).Some? {
      var c, limit := ParseCursor(cursor).value, ParseLimit(limitText).value;
      var p := Fetch(tables[0], c, limit);
      PageExact(tables[0], c, limit);
      if p.next == "" {
        assert forall r | r in p.rows :: r in tables[0];
      } else {
        WalkWhileChanging(tables[1..], p.next, limitText);
        SweepsStep(tables, c, limit, p, Walk(tables[1..], p.next, limitText).value);
      }
    }
  }

  ghost predicate AtRest(tables: seq<set<Row>>, table: set<Row>)
  {
    forall i | 0 <= i < |tables| :: tables[i] == table
  }

  ghost predicate Finishes(tables: seq<set<Row>>, cursor: string, limitText: string)
  {
    Walk(tables, cursor, limitText).Some? && Walk(tables, cursor, limitText).value.done
  }

  lemma {:induction false} WalkEnds(tables: seq<set<Row>>, table: set<Row>, cursor: string, limitText: string)
    requires ParseLimit(limitText).Some? && ParseCursor(cursor).Some?
    requires (forall r | r in table :: Printable(r))
    requires AtRest(tables, table) && |tables| > |Eligible(table, ParseCursor(cursor).value)|
    ensures Finishes(tables, cursor, limitText)
  {
    var limit := ParseLimit(limitText).value;
    var p := Fetch(tables[0], ParseCursor(cursor).value, limit);
    if p.next != "" {
      CursorAdvances(table, ParseCursor(cursor).value, limit);
      WalkEnds(tables[1..], table, p.next, limitText);
      WalkStep(tables, cursor, limitText);
    }
  }

  lemma CursorAdvances(table: set<Row>, c: Row, limit: nat)
    requires limit >= 1 && (forall r | r in table :: Printable(r)) && Fetch(table, c, limit).next != ""
    ensures var next := ParseCursor(Fetch(table, c, limit).next);
            next.Some? && |Eligible(table, next.value)| < |Eligible(table, c)|
  {
    PageExact(table, c, limit);
    var p := Fetch(table, c, limit);
    assert p.rows[limit - 1] in p.rows;
    EligibleShrinks(table, p.rows[limit - 1], c);
  }

  lemma WalkStep(tables: seq<set<Row>>, cursor: string, limitText: string)
    requires tables != [] && Answer(tables[0], limitText, cursor).Some?
    requires var next := Answer(tables[0], limitText, cursor).value.next;
             next != "" && Finishes(tables[1..], next, limitText)
    ensures Finishes(tables, cursor, limitText)
  {
  }

  lemma EligibleShrinks(table: set<Row>, last: Row, c: Row)
    requires last in table && Before(last, c)
    ensures |Eligible(table, last)| < |Eligible(table, c)|
  {
    BeforeTotal(last, last);
    forall r | r in Eligible(table, last) ensures r in Eligible(table, c) - {last} {
      BeforeTransitive(r, last, c);
    }
    SmallerSet(Eligible(table, last), Eligible(table, c) - {last});
    assert last in Eligible(table, c);
  }

  lemma {:induction false} SmallerSet(a: set<Row>, b: set<Row>)
    requires a <= b
    ensures |a| <= |b|
  {
    assert b == a + (b - a);
    assert |b| == |a| + |b - a|;
  }

  /** Main result: on a table at rest the walk from the empty cursor ends and lists exactly
      the sorted table, each row once, whatever page size was asked for. */
  lemma WalkIsSortedTable(tables: seq<set<Row>>, table: set<Row>, limitText: string)
    requires ParseLimit(limitText).Some? && AtRest(tables, table) && |tables| > |table|
    requires forall r | r in table :: Printable(r) && Before(r, START)
    ensures Walk(tables, "", limitText) == Some(Trip(Sorted(table), true))
  {
    assert Eligible(table, START) == table;
    WalkEnds(tables, table, "", limitText);
    WalkWhileChanging(tables, "", limitText);
    var t := Walk(tables, "", limitText).value;
    assert tables[0] == table;
    DescendingUnique(t.rows, Sorted(table));
  }

  /** Rows stamped by the server are listed, except in the last millisecond of 9999, which
      sorts above the start position. */
  lemma StoredRowListedIff(t: int, id: string)
    requires Representable(t) && id != ""
    ensures var r := Row(Render(t), id);
            Printable(r) && (Before(r, START) <==> t != END_MS - 1)
  {
    BelowSentinelIff(t);
    RenderAlphabet(t);
    RenderShape(t);
  }
}
