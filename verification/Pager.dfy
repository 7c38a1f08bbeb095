/**
 Cursor pagination over rows ordered by id: fetch a little more than a page, drop the cursor row in front and
 use the surplus row at the end to tell whether another page follows.
 */
module Pager {
  import opened Results
  import opened Sequences

  datatype Row = Row(id: string, payload: string)

  // ----- Cursors -----

  const PREFIX := "cursor"

  function Encode(primary: string, secondary: string): string {
    PREFIX + "/" + primary + "/" + secondary
  }

  /** The parts between slashes. */
  function Split(s: string): (parts: seq<string>)
    ensures parts != []
  {
    if s == [] then [[]]
    else
      var parts := Split(s[1..]);
      if s[0] == '/' then [[]] + parts else [[s[0]] + parts[0]] + parts[1..]
  }

  function Decode(cursor: string): Option<(string, string)> {
    var parts := Split(cursor);
    if |parts| == 3 && parts[0] == PREFIX then Some((parts[1], parts[2])) else None
  }

  lemma {:induction false} SplitAtSlash(p: string, rest: string)
    requires '/' !in p
    ensures Split(p) == [p] && Split(p + "/" + rest) == [p] + Split(rest)
  {
    if p == [] {
      assert p + "/" + rest == "/" + rest;
      assert ("/" + rest)[1..] == rest;
    } else {
      SplitAtSlash(p[1..], rest);
      assert (p + "/" + rest)[1..] == p[1..] + "/" + rest;
      assert [p[0]] + p[1..] == p;
    }
  }

  lemma {:induction false} PartsHaveNoSlash(s: string, i: nat)
    requires i < |Split(s)|
    ensures '/' !in Split(s)[i]
  {
    if s != [] {
      var parts := Split(s[1..]);
      if s[0] == '/' {
        if i > 0 {
          PartsHaveNoSlash(s[1..], i - 1);
        }
      } else {
        PartsHaveNoSlash(s[1..], i);
      }
    }
  }

  /** A cursor decodes to what it was made from exactly when neither part contains a slash. */
  lemma CursorRoundTripIff(primary: string, secondary: string)
    ensures Decode(Encode(primary, secondary)) == Some((primary, secondary)) <==> '/' !in primary && '/' !in secondary
  {
    var cursor := Encode(primary, secondary);
    if '/' !in primary && '/' !in secondary {
      SplitEncoded(primary, secondary);
    }
    if Decode(cursor) == Some((primary, secondary)) {
      PartsHaveNoSlash(cursor, 1);
      PartsHaveNoSlash(cursor, 2);
    }
  }

  lemma SplitEncoded(primary: string, secondary: string)
    requires '/' !in primary && '/' !in secondary
    ensures Split(Encode(primary, secondary)) == [PREFIX, primary, secondary]
  {
    SplitAtSlash(secondary, "");
    SplitAtSlash(primary, secondary);
    SplitAtSlash(PREFIX, primary + "/" + secondary);
    EncodeJoins(primary, secondary);
  }

  lemma EncodeJoins(primary: string, secondary: string)
    ensures Encode(primary, secondary) == PREFIX + "/" + (primary + "/" + secondary)
  {
  }

  /** The parts with slashes between them. */
  ghost function Join(parts: seq<string>): string
    requires parts != []
  {
    if |parts| == 1 then parts[0] else parts[0] + "/" + Join(parts[1..])
  }

  lemma {:induction false} JoinInvertsSplit(s: string)
    ensures Join(Split(s)) == s
  {
    if s != [] {
      var parts := Split(s[1..]);
      JoinInvertsSplit(s[1..]);
      assert s == [s[0]] + s[1..];
      if s[0] == '/' {
        assert ([[]] + parts)[1..] == parts;
        assert Join([[]] + parts) == "/" + Join(parts);
      } else {
        JoinPrepend(s[0], parts);
      }
    }
  }

  lemma JoinPrepend(c: char, parts: seq<string>)
    requires parts != []
    ensures Join([[c] + parts[0]] + parts[1..]) == [c] + Join(parts)
  {
    var longer := [[c] + parts[0]] + parts[1..];
    if |parts| > 1 {
      assert longer[1..] == parts[1..];
      assert [c] + parts[0] + "/" + Join(parts[1..]) == [c] + (parts[0] + "/" + Join(parts[1..]));
    }
  }

  lemma JoinThree(parts: seq<string>)
    requires |parts| == 3
    ensures Join(parts) == parts[0] + "/" + (parts[1] + "/" + parts[2])
  {
    assert parts[1..][1..] == parts[2..] && Join(parts[2..]) == parts[2];
  }

  /** A cursor decodes to two parts exactly when it was made from them and they contain no slash. */
  lemma DecodeIff(cursor: string, primary: string, secondary: string)
    ensures Decode(cursor) == Some((primary, secondary)) <==>
            cursor == Encode(primary, secondary) && '/' !in primary && '/' !in secondary
  {
    CursorRoundTripIff(primary, secondary);
    if Decode(cursor) == Some((primary, secondary)) {
      JoinInvertsSplit(cursor);
      JoinThree(Split(cursor));
      EncodeJoins(primary, secondary);
      PartsHaveNoSlash(cursor, 1);
      PartsHaveNoSlash(cursor, 2);
    }
  }

  lemma {:induction false} SplitJoined(p: string, rest: string)
    ensures |Split(p + "/" + rest)| == |Split(p)| + |Split(rest)|
  {
    if p == [] {
      assert p + "/" + rest == "/" + rest && ("/" + rest)[1..] == rest;
    } else {
      SplitJoined(p[1..], rest);
      assert (p + "/" + rest)[1..] == p[1..] + "/" + rest;
    }
  }

  lemma {:induction false} SplitSingleIff(s: string)
    ensures |Split(s)| == 1 <==> '/' !in s
  {
    if s != [] {
      SplitSingleIff(s[1..]);
      assert forall c :: c in s <==> c == s[0] || c in s[1..];
    }
  }

  /** The cursor of a row can be decoded at all exactly when its id contains no slash. */
  lemma DecodableIff(r: Row)
    ensures Decode(CursorOf(r)).Some? <==> '/' !in r.id
  {
    CursorRoundTripIff(r.id, r.id);
    SplitJoined(r.id, r.id);
    SplitJoined(PREFIX, r.id + "/" + r.id);
    assert CursorOf(r) == PREFIX + "/" + (r.id + "/" + r.id);
    SplitSingleIff(r.id);
  }

  // ----- The order of ids -----

  predicate Less(a: string, b: string) {
    b != [] && (a == [] || a[0] < b[0] || (a[0] == b[0] && Less(a[1..], b[1..])))
  }

  /** Where two ids first differ the smaller one ends or has the smaller character. */
  ghost predicate SmallerAt(a: string, b: string, i: nat) {
    i <= |a| && i < |b| && a[..i] == b[..i] && (i == |a| || a[i] < b[i])
  }

  /** The comparison is the lexicographic order. */
  lemma {:induction false} LessIff(a: string, b: string)
    ensures Less(a, b) <==> exists i: nat :: SmallerAt(a, b, i)
  {
    if b != [] && (a == [] || a[0] < b[0]) {
      assert SmallerAt(a, b, 0);
    } else if b != [] && a[0] == b[0] {
      LessIff(a[1..], b[1..]);
      assert a == [a[0]] + a[1..] && b == [b[0]] + b[1..];
      if i: nat :| SmallerAt(a[1..], b[1..], i) {
        assert a[..i + 1] == [a[0]] + a[1..][..i] && b[..i + 1] == [b[0]] + b[1..][..i];
        assert SmallerAt(a, b, i + 1);
      }
      if i: nat :| SmallerAt(a, b, i) {
        assert i > 0;
        assert a[1..][..i - 1] == a[..i][1..] && b[1..][..i - 1] == b[..i][1..];
        assert SmallerAt(a[1..], b[1..], i - 1);
      }
    } else {
      assert forall i: nat :: SmallerAt(a, b, i) && i > 0 ==> a[..i][0] == b[..i][0];
    }
  }

  lemma {:induction false} LessTransitive(a: string, b: string, c: string)
    requires Less(a, b) && Less(b, c)
    ensures Less(a, c)
  {
    if a != [] && a[0] == b[0] == c[0] {
      LessTransitive(a[1..], b[1..], c[1..]);
    }
  }

  lemma {:induction false} LessIrreflexive(a: string)
    ensures !Less(a, a)
  {
    if a != [] {
      LessIrreflexive(a[1..]);
    }
  }

  datatype Direction = Asc | Desc

  predicate Before(d: Direction, a: string, b: string) {
    match d case Asc => Less(a, b) case Desc => Less(b, a)
  }

  /** The matching rows in query order; ids are unique. */
  ghost predicate Ordered(d: Direction, rows: seq<Row>) {
    forall i, j {:trigger Before(d, rows[i].id, rows[j].id)} :: 0 <= i < j < |rows| ==> Before(d, rows[i].id, rows[j].id)
  }

  // ----- One page -----

  datatype PageInfo = PageInfo(hasPrevious: bool, hasNext: bool, startCursor: Option<string>, endCursor: Option<string>)

  datatype Page = Page(rows: seq<Row>, info: PageInfo)

  /** The cursor condition: the row of the cursor itself and everything after it in query order. */
  function FromCursor(d: Direction, rows: seq<Row>, id: string): seq<Row> {
    if rows == [] then []
    else (if rows[0].id == id || Before(d, id, rows[0].id) then [rows[0]] else []) + FromCursor(d, rows[1..], id)
  }

  function Take(rows: seq<Row>, limit: nat): seq<Row> {
    if |rows| <= limit then rows else rows[..limit]
  }

  function CursorOf(r: Row): string {
    Encode(r.id, r.id)
  }

  function WithCursors(rows: seq<Row>, hasPrevious: bool, hasNext: bool): Page {
    Page(rows, PageInfo(hasPrevious, hasNext,
                        if rows == [] then None else Some(CursorOf(rows[0])),
                        if rows == [] then None else Some(CursorOf(rows[|rows| - 1]))))
  }

  /** Trims the fetched rows, given the cursor the page was asked for and the SQL limit. */
  method TrimPage(fetched: seq<Row>, cursor: Option<string>, limit: nat) returns (p: Page)
    requires limit >= if cursor.Some? then 2 else 1
    requires |fetched| <= limit
    ensures p == Trimmed(fetched, cursor, limit)
  {
    var data := fetched;
    var hasPrevious, hasNext := false, false;
    if data == [] {
      return WithCursors(data, false, false);
    }
    match cursor {
      case Some(_) =>
        if Some(CursorOf(data[0])) == cursor && |data| != 1 {
          data := data[1..];
          hasPrevious := true;
        } else {
          data := data[..|data| - 1];
        }
        if |data| == limit - 1 {
          hasNext := true;
          data := data[..|data| - 1];
        }
      case None =>
        if |data| == limit {
          hasNext := true;
          data := data[..|data| - 1];
        }
    }
    p := WithCursors(data, hasPrevious, hasNext);
  }

  function Trimmed(fetched: seq<Row>, cursor: Option<string>, limit: nat): Page
    requires limit >= if cursor.Some? then 2 else 1
  {
    if fetched == [] then WithCursors([], false, false)
    else if cursor.None? then
      if |fetched| == limit then WithCursors(fetched[..limit - 1], false, true) else WithCursors(fetched, false, false)
    else
      var isCursorRow := Some(CursorOf(fetched[0])) == cursor && |fetched| != 1;
      var rest := if isCursorRow then fetched[1..] else fetched[..|fetched| - 1];
      if |rest| == limit - 1 then WithCursors(rest[..limit - 2], isCursorRow, true) else WithCursors(rest, isCursorRow, false)
  }

  /** The id inside a cursor. */
  function IdIn(cursor: Option<string>): Option<string> {
    if cursor.None? then None
    else match Decode(cursor.value) case None => None case Some((id, _)) => Some(id)
  }

  /** The id is the first part of the cursor. */
  lemma IdInIsPrimary(primary: string, secondary: string)
    requires '/' !in primary && '/' !in secondary
    ensures IdIn(Some(Encode(primary, secondary))) == Some(primary)
  {
    CursorRoundTripIff(primary, secondary);
  }

  /** A page of `n` rows; `None` is an undecodable cursor. */
  function Fetch(d: Direction, rows: seq<Row>, n: nat, cursor: Option<string>): Option<Page> {
    if cursor.None? then Some(Trimmed(Take(rows, n + 1), None, n + 1))
    else
      match IdIn(cursor)
      case None => None
      case Some(id) => Some(Trimmed(Take(FromCursor(d, rows, id), n + 2), cursor, n + 2))
  }

  // ----- Walking all pages -----

  lemma {:induction false} CursorSelectsSuffix(d: Direction, rows: seq<Row>, k: nat)
    requires Ordered(d, rows) && k < |rows|
    ensures FromCursor(d, rows, rows[k].id) == rows[k..]
  {
    if k > 0 {
      assert Before(d, rows[0].id, rows[k].id);
      NotBoth(d, rows[0].id, rows[k].id);
      CursorSelectsSuffix(d, rows[1..], k - 1);
      assert rows[1..][k - 1..] == rows[k..];
    } else {
      AllAfter(d, rows[1..], rows[0].id);
      assert rows == [rows[0]] + rows[1..];
    }
  }

  lemma NotBoth(d: Direction, a: string, b: string)
    requires Before(d, a, b)
    ensures a != b && !Before(d, b, a)
  {
    LessIrreflexive(a);
    if Before(d, b, a) {
      match d {
        case Asc => LessTransitive(a, b, a);
        case Desc => LessTransitive(a, b, a);
      }
    }
  }

  lemma {:induction false} AllAfter(d: Direction, rows: seq<Row>, id: string)
    requires forall i :: 0 <= i < |rows| ==> Before(d, id, rows[i].id)
    ensures FromCursor(d, rows, id) == rows
  {
    if rows != [] {
      AllAfter(d, rows[1..], id);
      assert rows == [rows[0]] + rows[1..];
    }
  }

  ghost function Min(a: nat, b: nat): nat {
    if a < b then a else b
  }

  ghost function Start(rows: seq<Row>, k: nat): Option<string>
    requires k <= |rows|
  {
    if k == 0 then None else Some(CursorOf(rows[k - 1]))
  }

  /**
   The page after the first `k` rows: the next `n` rows, with a next page exactly when rows remain after them
   and a previous one exactly between the first and the last row.
   */
  ghost function PageAt(rows: seq<Row>, n: nat, k: nat): Page
    requires k <= |rows|
  {
    WithCursors(Slice(rows, n, k), 0 < k < |rows|, k + n < |rows|)
  }

  ghost function Slice(rows: seq<Row>, n: nat, k: nat): seq<Row>
    requires k <= |rows|
  {
    rows[k..Min(k + n, |rows|)]
  }

  lemma TrimFirst(rows: seq<Row>, n: nat)
    ensures Trimmed(Take(rows, n + 1), None, n + 1) == PageAt(rows, n, 0)
  {
    if n < |rows| {
      assert rows[..n + 1][..n] == rows[0..n];
    } else {
      assert rows[0..|rows|] == rows;
    }
  }

  lemma TakeSuffix(rows: seq<Row>, k: nat, limit: nat)
    requires 0 < k <= |rows| && limit > 0
    ensures var fetched := Take(rows[k - 1..], limit);
            && |fetched| == Min(limit, |rows| - k + 1) && fetched[0] == rows[k - 1]
            && fetched[1..] == rows[k..k - 1 + |fetched|]
  {
  }

  lemma TrimNext(rows: seq<Row>, n: nat, k: nat, c: string)
    requires 0 < k < |rows| && c == CursorOf(rows[k - 1])
    ensures Trimmed(Take(rows[k - 1..], n + 2), Some(c), n + 2) == PageAt(rows, n, k)
  {
    var fetched := Take(rows[k - 1..], n + 2);
    TakeSuffix(rows, k, n + 2);
    if |fetched| == n + 2 {
      assert rows[k..k + n + 1][..n] == rows[k..k + n];
    }
  }

  /** After the last row only the cursor row is left; it is dropped as if it were the surplus row. */
  lemma TrimLast(rows: seq<Row>, n: nat, c: string)
    requires rows != []
    ensures Trimmed(Take(rows[|rows| - 1..], n + 2), Some(c), n + 2) == PageAt(rows, n, |rows|)
  {
    assert rows[|rows| - 1..][..0] == [];
  }

  /** The query after the first `k` rows returns exactly that page, unless the id it starts from has a slash. */
  lemma FetchIsPageAt(d: Direction, rows: seq<Row>, n: nat, k: nat, cursor: Option<string>)
    requires Ordered(d, rows) && k <= |rows| && cursor == Start(rows, k)
    ensures Fetch(d, rows, n, cursor) == if k > 0 && '/' in rows[k - 1].id then None else Some(PageAt(rows, n, k))
  {
    if k == 0 {
      TrimFirst(rows, n);
    } else {
      FetchAfter(d, rows, n, k, CursorOf(rows[k - 1]));
    }
  }

  lemma FetchAfter(d: Direction, rows: seq<Row>, n: nat, k: nat, c: string)
    requires Ordered(d, rows) && 0 < k <= |rows| && c == CursorOf(rows[k - 1])
    ensures Fetch(d, rows, n, Some(c)) == if '/' in rows[k - 1].id then None else Some(PageAt(rows, n, k))
  {
    DecodableIff(rows[k - 1]);
    if '/' !in rows[k - 1].id {
      CursorRoundTripIff(rows[k - 1].id, rows[k - 1].id);
      CursorSelectsSuffix(d, rows, k - 1);
      if k < |rows| {
        TrimNext(rows, n, k, c);
      } else {
        TrimLast(rows, n, c);
      }
    }
  }

  /** After the last row the query does not admit that there is a previous page. */
  lemma NothingAfterLastRow(d: Direction, rows: seq<Row>, n: nat)
    requires Ordered(d, rows) && rows != [] && '/' !in rows[|rows| - 1].id
    ensures Fetch(d, rows, n, Start(rows, |rows|)) == Some(Page([], PageInfo(false, false, None, None)))
  {
    FetchIsPageAt(d, rows, n, |rows|, Start(rows, |rows|));
  }

  // ----- A cursor whose row is gone -----

  /** `id` is not among the rows; `k` of them come before it. */
  ghost predicate FallsBetween(d: Direction, rows: seq<Row>, id: string, k: nat) {
    && k <= |rows|
    && (forall i :: 0 <= i < k ==> Before(d, rows[i].id, id))
    && (forall i :: k <= i < |rows| ==> Before(d, id, rows[i].id))
  }

  lemma {:induction false} AbsentSelectsSuffix(d: Direction, rows: seq<Row>, id: string, k: nat)
    requires FallsBetween(d, rows, id, k)
    ensures FromCursor(d, rows, id) == rows[k..]
  {
    if k > 0 {
      NotBoth(d, rows[0].id, id);
      AbsentSelectsSuffix(d, rows[1..], id, k - 1);
      assert rows[1..][k - 1..] == rows[k..];
    } else {
      AllAfter(d, rows, id);
    }
  }

  /** The number of rows shown after a cursor whose row is gone: one row at the end is dropped all the same. */
  ghost function ShownAfterGap(rows: seq<Row>, n: nat, k: nat): nat
    requires k <= |rows|
  {
    if k == |rows| then 0 else Min(n, |rows| - k - 1)
  }

  lemma TrimAfterGap(rows: seq<Row>, n: nat, k: nat, c: string)
    requires k <= |rows| && forall i :: k <= i < |rows| ==> CursorOf(rows[i]) != c
    ensures Trimmed(Take(rows[k..], n + 2), Some(c), n + 2) ==
            WithCursors(rows[k..k + ShownAfterGap(rows, n, k)], false, k + n + 1 < |rows|)
  {
    var fetched := Take(rows[k..], n + 2);
    if fetched != [] {
      assert fetched[0] == rows[k];
      assert fetched[..|fetched| - 1] == rows[k..k + |fetched| - 1];
      if |fetched| == n + 2 {
        assert rows[k..k + n + 1][..n] == rows[k..k + n];
      }
    }
  }

  /**
   After a cursor whose row is gone, the page starts with the next row, has no previous page, and misses the
   last of all rows: a next page exists only when at least two more rows than shown remain.
   */
  lemma FetchAfterGap(d: Direction, rows: seq<Row>, n: nat, k: nat, id: string)
    requires FallsBetween(d, rows, id, k) && '/' !in id
    ensures Fetch(d, rows, n, Some(Encode(id, id))) ==
            Some(WithCursors(rows[k..k + ShownAfterGap(rows, n, k)], false, k + n + 1 < |rows|))
  {
    IdInIsPrimary(id, id);
    AbsentSelectsSuffix(d, rows, id, k);
    forall i | k <= i < |rows|
      ensures CursorOf(rows[i]) != Encode(id, id)
    {
      NotBoth(d, id, rows[i].id);
      EncodeInjective(rows[i].id, id);
    }
    TrimAfterGap(rows, n, k, Encode(id, id));
  }

  lemma EncodeInjective(a: string, b: string)
    ensures Encode(a, a) == Encode(b, b) ==> a == b
  {
    if Encode(a, a) == Encode(b, b) {
      assert |Encode(a, a)| == |PREFIX| + 2 + 2 * |a| && |Encode(b, b)| == |PREFIX| + 2 + 2 * |b|;
      var n := |PREFIX| + 1;
      assert Encode(a, a)[n..n + |a|] == a && Encode(b, b)[n..n + |b|] == b;
    }
  }

  lemma EndOfPage(rows: seq<Row>, n: nat, k: nat)
    requires n >= 1 && k + n < |rows|
    ensures PageAt(rows, n, k).info.endCursor == Start(rows, k + n)
  {
    assert rows[k..k + n][n - 1] == rows[k + n - 1];
  }

  /** Following the end cursor of a page gives the next page. */
  lemma FollowIsPageAt(d: Direction, rows: seq<Row>, n: nat, k: nat, q: Page)
    requires Ordered(d, rows) && n >= 1 && k + n < |rows|
    requires Fetch(d, rows, n, PageAt(rows, n, k).info.endCursor) == Some(q)
    ensures q == PageAt(rows, n, k + n)
  {
    EndOfPage(rows, n, k);
    FetchIsPageAt(d, rows, n, k + n, PageAt(rows, n, k).info.endCursor);
  }

  ghost predicate Follows(d: Direction, rows: seq<Row>, n: nat, p: Page, q: Page) {
    p.info.hasNext && p.info.endCursor.Some? && Fetch(d, rows, n, p.info.endCursor) == Some(q)
  }

  /** Following the end cursor from page to page while there is a next one. */
  ghost predicate IsWalk(d: Direction, rows: seq<Row>, n: nat, pages: seq<Page>) {
    && pages != []
    && Fetch(d, rows, n, None) == Some(pages[0])
    && forall i: nat :: i < |pages| - 1 ==> FollowsAt(d, rows, n, pages, i)
  }

  ghost predicate FollowsAt(d: Direction, rows: seq<Row>, n: nat, pages: seq<Page>, i: nat) {
    i + 1 < |pages| && Follows(d, rows, n, pages[i], pages[i + 1])
  }

  ghost function Concat(pages: seq<Page>): seq<Row> {
    if pages == [] then [] else Concat(pages[..|pages| - 1]) + pages[|pages| - 1].rows
  }

  /** The number of rows on `i` full pages. */
  ghost function Offset(n: nat, i: nat): nat {
    if i == 0 then 0 else Offset(n, i - 1) + n
  }

  lemma {:induction false} OffsetGrows(n: nat, i: nat)
    requires n >= 1
    ensures Offset(n, i) >= i
  {
    if i > 0 {
      OffsetGrows(n, i - 1);
    }
  }

  ghost predicate InPlace(rows: seq<Row>, n: nat, p: Page, i: nat) {
    (i == 0 || Offset(n, i) < |rows|) && Offset(n, i) <= |rows| && p == PageAt(rows, n, Offset(n, i))
  }

  lemma InPlaceFacts(rows: seq<Row>, n: nat, p: Page, i: nat)
    requires InPlace(rows, n, p, i)
    ensures p.rows == Slice(rows, n, Offset(n, i))
    ensures p.info.hasNext <==> Offset(n, i + 1) < |rows|
  {
  }

  lemma FollowInPlace(d: Direction, rows: seq<Row>, n: nat, k: nat, p: Page, q: Page)
    requires Ordered(d, rows) && n >= 1 && k + n < |rows| && p == PageAt(rows, n, k) && Follows(d, rows, n, p, q)
    ensures q == PageAt(rows, n, k + n)
  {
    FollowIsPageAt(d, rows, n, k, q);
  }

  lemma NextInPlace(d: Direction, rows: seq<Row>, n: nat, p: Page, q: Page, i: nat)
    requires Ordered(d, rows) && n >= 1 && InPlace(rows, n, p, i) && Follows(d, rows, n, p, q)
    ensures InPlace(rows, n, q, i + 1)
  {
    InPlaceFacts(rows, n, p, i);
    FollowInPlace(d, rows, n, Offset(n, i), p, q);
  }

  lemma WalkStart(d: Direction, rows: seq<Row>, n: nat, pages: seq<Page>)
    requires Ordered(d, rows) && pages != [] && Fetch(d, rows, n, None) == Some(pages[0])
    ensures InPlace(rows, n, pages[0], 0)
  {
    FetchIsPageAt(d, rows, n, 0, None);
  }

  /** If page `i` is in its place, so is the next one. */
  ghost predicate PlacesNext(rows: seq<Row>, n: nat, pages: seq<Page>, i: nat) {
    i + 1 < |pages| && (InPlace(rows, n, pages[i], i) ==> InPlace(rows, n, pages[i + 1], i + 1))
  }

  lemma WalkStep(d: Direction, rows: seq<Row>, n: nat, pages: seq<Page>, i: nat)
    requires Ordered(d, rows) && n >= 1 && FollowsAt(d, rows, n, pages, i)
    ensures PlacesNext(rows, n, pages, i)
  {
    if InPlace(rows, n, pages[i], i) {
      NextInPlace(d, rows, n, pages[i], pages[i + 1], i);
    }
  }

  lemma {:induction false} AllInPlace(rows: seq<Row>, n: nat, pages: seq<Page>, i: nat)
    requires i < |pages| && InPlace(rows, n, pages[0], 0) && forall j: nat :: j < i ==> PlacesNext(rows, n, pages, j)
    ensures InPlace(rows, n, pages[i], i)
  {
    if i > 0 {
      AllInPlace(rows, n, pages, i - 1);
      assert PlacesNext(rows, n, pages, i - 1);
    }
  }

  /** The pages of a walk lie side by side. */
  lemma WalkPage(d: Direction, rows: seq<Row>, n: nat, pages: seq<Page>, i: nat)
    requires Ordered(d, rows) && n >= 1 && IsWalk(d, rows, n, pages) && i < |pages|
    ensures InPlace(rows, n, pages[i], i)
  {
    WalkStart(d, rows, n, pages);
    forall j: nat | j < i
      ensures PlacesNext(rows, n, pages, j)
    {
      WalkStep(d, rows, n, pages, j);
    }
    AllInPlace(rows, n, pages, i);
  }

  ghost predicate ShowsSlice(rows: seq<Row>, n: nat, p: Page, i: nat) {
    Offset(n, i) <= |rows| && p.rows == Slice(rows, n, Offset(n, i))
  }

  /** The first rows, up to `m` of them. */
  ghost function Prefix(rows: seq<Row>, m: nat): seq<Row> {
    rows[..Min(m, |rows|)]
  }

  lemma JoinSlices(rows: seq<Row>, n: nat, k: nat)
    requires k <= |rows|
    ensures Prefix(rows, k) + Slice(rows, n, k) == Prefix(rows, k + n)
  {
  }

  lemma ConcatStep(rows: seq<Row>, n: nat, pages: seq<Page>, last: nat)
    requires |pages| == last + 1 && Concat(pages[..last]) == Prefix(rows, Offset(n, last))
    requires ShowsSlice(rows, n, pages[last], last)
    ensures Concat(pages) == Prefix(rows, Offset(n, last + 1))
  {
    JoinSlices(rows, n, Offset(n, last));
  }

  lemma {:induction false} ConcatIsPrefix(rows: seq<Row>, n: nat, pages: seq<Page>)
    requires forall i :: 0 <= i < |pages| ==> ShowsSlice(rows, n, pages[i], i)
    ensures Concat(pages) == Prefix(rows, Offset(n, |pages|))
  {
    if pages != [] {
      var last := |pages| - 1;
      ConcatIsPrefix(rows, n, pages[..last]);
      ConcatStep(rows, n, pages, last);
    }
  }

  lemma WalkSlice(d: Direction, rows: seq<Row>, n: nat, pages: seq<Page>, i: nat)
    requires Ordered(d, rows) && n >= 1 && IsWalk(d, rows, n, pages) && i < |pages|
    ensures ShowsSlice(rows, n, pages[i], i) && (pages[i].info.hasNext <==> Offset(n, i + 1) < |rows|)
  {
    WalkPage(d, rows, n, pages, i);
    InPlaceFacts(rows, n, pages[i], i);
  }

  /**
   After any number of pages the walk has shown the first rows in order without gaps; there is a next page
   exactly when rows remain, and a walk that ended has shown every row exactly once.
   */
  lemma WalkShowsRows(d: Direction, rows: seq<Row>, n: nat, pages: seq<Page>)
    requires Ordered(d, rows) && n >= 1 && IsWalk(d, rows, n, pages)
    ensures Concat(pages) <= rows
    ensures pages[|pages| - 1].info.hasNext <==> |Concat(pages)| < |rows|
    ensures !pages[|pages| - 1].info.hasNext ==> Concat(pages) == rows
  {
    forall i | 0 <= i < |pages|
      ensures ShowsSlice(rows, n, pages[i], i)
    {
      WalkSlice(d, rows, n, pages, i);
    }
    ConcatIsPrefix(rows, n, pages);
    WalkSlice(d, rows, n, pages, |pages| - 1);
  }

  /** No walk is longer than the rows allow. */
  lemma WalkTerminates(d: Direction, rows: seq<Row>, n: nat, pages: seq<Page>)
    requires Ordered(d, rows) && n >= 1 && IsWalk(d, rows, n, pages)
    ensures |pages| <= |rows| + 1
  {
    var last := |pages| - 1;
    WalkPage(d, rows, n, pages, last);
    OffsetGrows(n, last);
  }

  /** A page with a successor carries a cursor, which can be followed exactly when its last id has no slash. */
  lemma WalkContinues(d: Direction, rows: seq<Row>, n: nat, p: Page, i: nat)
    requires n >= 1 && InPlace(rows, n, p, i) && p.info.hasNext
    ensures p.rows != [] && p.info.endCursor.Some?
    ensures Fetch(d, rows, n, p.info.endCursor).Some? <==> '/' !in p.rows[|p.rows| - 1].id
  {
    var k := Offset(n, i);
    InPlaceFacts(rows, n, p, i);
    EndOfPage(rows, n, k);
    DecodableIff(rows[k + n - 1]);
  }

  /** A walk that has no next page to follow. */
  ghost predicate IsCompleteWalk(d: Direction, rows: seq<Row>, n: nat, pages: seq<Page>) {
    IsWalk(d, rows, n, pages) && !pages[|pages| - 1].info.hasNext
  }

  /** The last id on the first `i` full pages, if rows follow it, contains no slash. */
  ghost predicate EndsWithoutSlash(rows: seq<Row>, n: nat, i: nat) {
    0 < Offset(n, i) < |rows| ==> '/' !in rows[Offset(n, i) - 1].id
  }

  lemma {:induction false} OffsetMonotone(n: nat, i: nat, j: nat)
    requires i <= j
    ensures Offset(n, i) <= Offset(n, j)
  {
    if i < j {
      OffsetMonotone(n, i, j - 1);
    }
  }

  lemma FollowableIff(d: Direction, rows: seq<Row>, n: nat, p: Page, i: nat)
    requires n >= 1 && InPlace(rows, n, p, i) && p.info.hasNext
    ensures p.info.endCursor.Some? && (Fetch(d, rows, n, p.info.endCursor).Some? <==> EndsWithoutSlash(rows, n, i + 1))
  {
    InPlaceFacts(rows, n, p, i);
    WalkContinues(d, rows, n, p, i);
    LastOfSlice(rows, n, Offset(n, i));
  }

  lemma LastOfSlice(rows: seq<Row>, n: nat, k: nat)
    requires n >= 1 && k + n < |rows|
    ensures |Slice(rows, n, k)| == n && Slice(rows, n, k)[n - 1] == rows[k + n - 1]
  {
  }

  /** A page that was followed did not end on an id with a slash. */
  lemma FollowedEnds(d: Direction, rows: seq<Row>, n: nat, pages: seq<Page>, i: nat)
    requires Ordered(d, rows) && n >= 1 && IsWalk(d, rows, n, pages) && 0 < i < |pages|
    ensures EndsWithoutSlash(rows, n, i)
  {
    WalkPage(d, rows, n, pages, i - 1);
    FollowedEnd(d, rows, n, pages, i - 1);
  }

  lemma FollowedEnd(d: Direction, rows: seq<Row>, n: nat, pages: seq<Page>, i: nat)
    requires n >= 1 && FollowsAt(d, rows, n, pages, i) && InPlace(rows, n, pages[i], i)
    ensures EndsWithoutSlash(rows, n, i + 1)
  {
    FollowableIff(d, rows, n, pages[i], i);
  }

  lemma CompleteWalkEnds(d: Direction, rows: seq<Row>, n: nat, pages: seq<Page>, i: nat)
    requires Ordered(d, rows) && n >= 1 && IsCompleteWalk(d, rows, n, pages)
    ensures EndsWithoutSlash(rows, n, i)
  {
    if i < |pages| {
      if i > 0 {
        FollowedEnds(d, rows, n, pages, i);
      }
    } else {
      WalkPage(d, rows, n, pages, |pages| - 1);
      InPlaceFacts(rows, n, pages[|pages| - 1], |pages| - 1);
      OffsetMonotone(n, |pages|, i);
    }
  }

  lemma ContinueWalk(d: Direction, rows: seq<Row>, n: nat, pages: seq<Page>) returns (next: Page)
    requires Ordered(d, rows) && n >= 1 && IsWalk(d, rows, n, pages) && pages[|pages| - 1].info.hasNext
    requires EndsWithoutSlash(rows, n, |pages|)
    ensures IsWalk(d, rows, n, pages + [next])
  {
    var last := |pages| - 1;
    WalkPage(d, rows, n, pages, last);
    FollowableIff(d, rows, n, pages[last], last);
    next := Fetch(d, rows, n, pages[last].info.endCursor).value;
    AppendPage(d, rows, n, pages, next);
  }

  lemma AppendPage(d: Direction, rows: seq<Row>, n: nat, pages: seq<Page>, next: Page)
    requires IsWalk(d, rows, n, pages) && Follows(d, rows, n, pages[|pages| - 1], next)
    ensures IsWalk(d, rows, n, pages + [next])
  {
    var longer := pages + [next];
    forall i: nat | i < |longer| - 1
      ensures FollowsAt(d, rows, n, longer, i)
    {
      assert i < |pages| - 1 ==> FollowsAt(d, rows, n, pages, i);
    }
  }

  lemma {:induction false} CompleteWalk(d: Direction, rows: seq<Row>, n: nat, pages: seq<Page>) returns (all: seq<Page>)
    requires Ordered(d, rows) && n >= 1 && IsWalk(d, rows, n, pages)
    requires forall i: nat :: EndsWithoutSlash(rows, n, i)
    ensures IsCompleteWalk(d, rows, n, all)
    decreases |rows| + 1 - |pages|
  {
    all := pages;
    if pages[|pages| - 1].info.hasNext {
      var next := ContinueWalk(d, rows, n, pages);
      WalkTerminates(d, rows, n, pages + [next]);
      all := CompleteWalk(d, rows, n, pages + [next]);
    }
  }

  /** The rows can be walked to the end exactly when no page that others follow ends on an id with a slash. */
  lemma CompleteWalkIff(d: Direction, rows: seq<Row>, n: nat)
    requires Ordered(d, rows) && n >= 1
    ensures (exists pages :: IsCompleteWalk(d, rows, n, pages)) <==> forall i: nat :: EndsWithoutSlash(rows, n, i)
  {
    if pages :| IsCompleteWalk(d, rows, n, pages) {
      forall i: nat
        ensures EndsWithoutSlash(rows, n, i)
      {
        CompleteWalkEnds(d, rows, n, pages, i);
      }
    }
    if forall i: nat :: EndsWithoutSlash(rows, n, i) {
      FetchIsPageAt(d, rows, n, 0, None);
      var pages := CompleteWalk(d, rows, n, [Fetch(d, rows, n, None).value]);
    }
  }

  /** A page size of zero claims a next page but gives no cursor to follow. */
  lemma ZeroPageSizeIsStuck(d: Direction, rows: seq<Row>)
    requires rows != []
    ensures Fetch(d, rows, 0, None) == Some(Page([], PageInfo(false, true, None, None)))
  {
    assert Take(rows, 1) == rows[..1];
  }

  // ----- The query -----

  const DEFAULT_LIMIT := 10

  datatype ConnectionArguments = ConnectionArguments(first: Option<nat>, last: Option<nat>, limit: Option<nat>,
                                                     offset: Option<nat>, after: Option<string>, before: Option<string>)
  {
    predicate IsCursorBased() {
      first.Some? || last.Some? || after.Some? || before.Some?
    }

    function PageSize(): nat {
      if first.Some? then first.value else if last.Some? then last.value else if limit.Some? then limit.value else DEFAULT_LIMIT
    }

    predicate Ascending() {
      first.None? && last.Some?
    }

    /** The number of rows to leave out in front. */
    function Start(): nat {
      if offset.Some? then offset.value else 0
    }
  }

  /** The rows between two ids, both included; a missing bound does not restrict. */
  ghost predicate InWindow(id: string, upper: Option<string>, lower: Option<string>) {
    && (upper.Some? ==> id == upper.value || Less(id, upper.value))
    && (lower.Some? ==> id == lower.value || Less(lower.value, id))
  }

  ghost function Window(rows: seq<Row>, upper: Option<string>, lower: Option<string>): seq<Row> {
    if rows == [] then []
    else (if InWindow(rows[0].id, upper, lower) then [rows[0]] else []) + Window(rows[1..], upper, lower)
  }

  lemma {:induction false} WindowOfAll(rows: seq<Row>)
    ensures Window(rows, None, None) == rows
  {
    if rows != [] {
      WindowOfAll(rows[1..]);
      assert rows == [rows[0]] + rows[1..];
    }
  }

  /** One more cursor condition narrows the window from above. */
  lemma {:induction false} AfterNarrows(rows: seq<Row>, id: string)
    ensures FromCursor(Desc, rows, id) == Window(rows, Some(id), None)
  {
    if rows != [] {
      AfterNarrows(rows[1..], id);
    }
  }

  /** And from below. */
  lemma {:induction false} BeforeNarrows(rows: seq<Row>, upper: Option<string>, id: string)
    ensures FromCursor(Asc, Window(rows, upper, None), id) == Window(rows, upper, Some(id))
  {
    if rows != [] {
      BeforeNarrows(rows[1..], upper, id);
      var rest := Window(rows[1..], upper, None);
      if InWindow(rows[0].id, upper, None) {
        assert Window(rows, upper, None) == [rows[0]] + rest && ([rows[0]] + rest)[1..] == rest;
      } else {
        assert Window(rows, upper, None) == rest;
      }
    }
  }

  function Drop(rows: seq<Row>, n: nat): seq<Row> {
    if |rows| <= n then [] else rows[n..]
  }

  function Reverse(rows: seq<Row>): seq<Row> {
    if rows == [] then [] else Reverse(rows[1..]) + [rows[0]]
  }

  lemma {:induction false} ReverseAt(rows: seq<Row>, i: nat)
    requires i < |rows|
    ensures |Reverse(rows)| == |rows| && Reverse(rows)[i] == rows[|rows| - 1 - i]
  {
    if |rows| > 1 {
      ReverseAt(rows[1..], if i < |rows| - 1 then i else 0);
    }
  }

  lemma {:induction false} ReverseLength(rows: seq<Row>)
    ensures |Reverse(rows)| == |rows|
  {
    if rows != [] {
      ReverseLength(rows[1..]);
    }
  }

  /** Turned around, rows in descending order are in ascending order. */
  lemma ReverseOrdered(rows: seq<Row>)
    requires Ordered(Desc, rows)
    ensures Ordered(Asc, Reverse(rows))
  {
    ReverseLength(rows);
    forall i, j | 0 <= i < j < |Reverse(rows)|
      ensures Before(Asc, Reverse(rows)[i].id, Reverse(rows)[j].id)
    {
      ReverseAt(rows, i);
      ReverseAt(rows, j);
      assert Before(Desc, rows[|rows| - 1 - j].id, rows[|rows| - 1 - i].id);
    }
  }

  lemma {:induction false} FromCursorConcat(d: Direction, s: seq<Row>, t: seq<Row>, id: string)
    ensures FromCursor(d, s + t, id) == FromCursor(d, s, id) + FromCursor(d, t, id)
  {
    if s == [] {
      assert s + t == t;
    } else {
      assert (s + t)[0] == s[0] && (s + t)[1..] == s[1..] + t;
      FromCursorConcat(d, s[1..], t, id);
      var head := if s[0].id == id || Before(d, id, s[0].id) then [s[0]] else [];
      ConcatAssociative(head, FromCursor(d, s[1..], id), FromCursor(d, t, id));
    }
  }

  /** Filtering commutes with turning the order around. */
  lemma {:induction false} FromCursorReverse(d: Direction, rows: seq<Row>, id: string)
    ensures FromCursor(d, Reverse(rows), id) == Reverse(FromCursor(d, rows, id))
  {
    if rows != [] {
      FromCursorReverse(d, rows[1..], id);
      FromCursorConcat(d, Reverse(rows[1..]), [rows[0]], id);
      var rest := FromCursor(d, rows[1..], id);
      assert [rows[0]][1..] == [];
      if rows[0].id == id || Before(d, id, rows[0].id) {
        assert FromCursor(d, [rows[0]], id) == [rows[0]];
        assert FromCursor(d, rows, id) == [rows[0]] + rest && FromCursor(d, rows, id)[1..] == rest;
      } else {
        assert FromCursor(d, [rows[0]], id) == [];
        assert FromCursor(d, rows, id) == rest;
      }
    }
  }

  /**
   The answer to a query over the matching rows, given in descending id order: none on an undecodable cursor,
   else the trimmed window between the two cursors, or a plain list when nothing asks for a cursor.
   */
  ghost function Answer(matching: seq<Row>, args: ConnectionArguments, totalCount: nat): Option<Page> {
    if (args.after.Some? && IdIn(args.after).None?) || (args.before.Some? && IdIn(args.before).None?) then None
    else
      Some(PageOf(Window(matching, IdIn(args.after), IdIn(args.before)), args, totalCount))
  }

  ghost function PageOf(window: seq<Row>, args: ConnectionArguments, totalCount: nat): Page {
    var rows := Drop(if args.Ascending() then Reverse(window) else window, args.Start());
    if args.IsCursorBased() then CursorPage(rows, args) else PlainPage(rows, args, totalCount)
  }

  ghost function CursorPage(rows: seq<Row>, args: ConnectionArguments): Page {
    var cursor := if args.before.Some? then args.before else args.after;
    var limit := args.PageSize() + if cursor.Some? then 2 else 1;
    Trimmed(Take(rows, limit), cursor, limit)
  }

  ghost function PlainPage(rows: seq<Row>, args: ConnectionArguments, totalCount: nat): Page {
    var shown := Take(rows, args.PageSize());
    Page(shown, PageInfo(shown != [] && 1 < args.Start() < totalCount,
                         shown != [] && args.PageSize() + args.Start() < totalCount, None, None))
  }

  /** What a single cursor selects, in the order of the query. */
  ghost function SelectedBy(d: Direction, rows: seq<Row>, id: Option<string>): seq<Row> {
    if id.None? then rows else FromCursor(d, rows, id.value)
  }

  lemma WindowAbove(matching: seq<Row>, id: Option<string>)
    ensures Window(matching, id, None) == SelectedBy(Desc, matching, id)
  {
    WindowOfAll(matching);
    if id.Some? {
      AfterNarrows(matching, id.value);
    }
  }

  lemma WindowBelow(matching: seq<Row>, id: Option<string>)
    ensures Reverse(Window(matching, None, id)) == SelectedBy(Asc, Reverse(matching), id)
  {
    WindowOfAll(matching);
    if id.Some? {
      BeforeNarrows(matching, None, id.value);
      FromCursorReverse(Asc, matching, id.value);
    }
  }

  /** A query for rows selected by a single cursor, or by none, is a fetch. */
  lemma FetchSelected(d: Direction, rows: seq<Row>, args: ConnectionArguments, cursor: Option<string>)
    requires cursor == if args.before.Some? then args.before else args.after
    requires cursor.Some? ==> IdIn(cursor).Some?
    ensures Fetch(d, rows, args.PageSize(), cursor) == Some(CursorPage(SelectedBy(d, rows, IdIn(cursor)), args))
  {
  }

  /** Without an offset a query with `after` or a page size alone gives the page after that cursor. */
  lemma ForwardAnswer(matching: seq<Row>, args: ConnectionArguments, totalCount: nat)
    requires args.before.None? && args.offset.None? && !args.Ascending() && args.IsCursorBased()
    ensures Answer(matching, args, totalCount) == Fetch(Desc, matching, args.PageSize(), args.after)
  {
    if args.after.None? || IdIn(args.after).Some? {
      var rows := SelectedBy(Desc, matching, IdIn(args.after));
      WindowAbove(matching, IdIn(args.after));
      assert Drop(rows, 0) == rows;
      FetchSelected(Desc, matching, args, args.after);
      assert Answer(matching, args, totalCount) == Some(CursorPage(rows, args));
    }
  }

  /** Without an offset a backward query gives the page before its cursor, in ascending order. */
  lemma BackwardAnswer(matching: seq<Row>, args: ConnectionArguments, totalCount: nat)
    requires args.after.None? && args.offset.None? && args.Ascending()
    ensures Answer(matching, args, totalCount) == Fetch(Asc, Reverse(matching), args.PageSize(), args.before)
  {
    if args.before.None? || IdIn(args.before).Some? {
      var rows := SelectedBy(Asc, Reverse(matching), IdIn(args.before));
      WindowBelow(matching, IdIn(args.before));
      assert Drop(rows, 0) == rows;
      FetchSelected(Asc, Reverse(matching), args, args.before);
      assert Answer(matching, args, totalCount) == Some(CursorPage(rows, args));
    }
  }

  /** The rows that meet the cursor conditions, narrowed one condition after the other. */
  method SelectRows(matching: seq<Row>, args: ConnectionArguments) returns (selected: Option<seq<Row>>)
    ensures selected ==
            if (args.after.Some? && IdIn(args.after).None?) || (args.before.Some? && IdIn(args.before).None?) then None
            else Some(Window(matching, IdIn(args.after), IdIn(args.before)))
  {
    var rows := matching;
    WindowOfAll(matching);
    if args.after.Some? {
      match Decode(args.after.value) {
        case None => return None;
        case Some((id, _)) =>
          AfterNarrows(matching, id);
          rows := FromCursor(Desc, rows, id);
      }
    }
    if args.before.Some? {
      match Decode(args.before.value) {
        case None => return None;
        case Some((id, _)) =>
          BeforeNarrows(matching, IdIn(args.after), id);
          rows := FromCursor(Asc, rows, id);
      }
    }
    selected := Some(rows);
  }

  /** Orders and limits the selected rows and trims the page. */
  method QueryPage(selected: seq<Row>, args: ConnectionArguments, totalCount: nat) returns (p: Page)
    ensures p == PageOf(selected, args, totalCount)
  {
    var cursorParam := if args.before.Some? then args.before else args.after;
    var isCursorBased := args.first.Some? || args.last.Some? || cursorParam.Some?;
    var dataLimit := args.PageSize();
    var limit := if isCursorBased then (if cursorParam.Some? then dataLimit + 2 else dataLimit + 1) else dataLimit;
    var ascending := args.first.None? && args.last.Some?;
    var data := Take(Drop(if ascending then Reverse(selected) else selected, args.Start()), limit);
    if data == [] {
      return WithCursors([], false, false);
    }
    if isCursorBased {
      p := TrimPage(data, cursorParam, limit);
      return;
    }
    var offset := args.Start();
    p := Page(data, PageInfo(1 < offset && offset < totalCount, limit + offset < totalCount, None, None));
  }

  // ----- The answers, row by row -----

  /** The cursor belongs to row `m`; without a cursor `m` is the number of rows. */
  ghost predicate IsCursorOf(rows: seq<Row>, cursor: Option<string>, m: nat) {
    && m <= |rows|
    && (m == |rows| ==> cursor == None)
    && (m < |rows| ==> cursor == Some(CursorOf(rows[m])) && '/' !in rows[m].id)
  }

  /**
   Of the `m` rows with ids above the cursor, the `n` with the smallest ids, in ascending order; there is a
   next page exactly when more of them remain, and a previous one exactly when there was a cursor below them.
   */
  ghost predicate ShowsUpwards(rows: seq<Row>, n: nat, m: nat, p: Page)
    requires m <= |rows|
  {
    && |p.rows| == Min(n, m)
    && (forall i :: 0 <= i < |p.rows| ==> p.rows[i] == rows[m - 1 - i])
    && (p.info.hasNext <==> n < m)
    && (p.info.hasPrevious <==> 0 < m < |rows|)
    && p.info.startCursor == (if p.rows == [] then None else Some(CursorOf(rows[m - 1])))
    && p.info.endCursor == (if p.rows == [] then None else Some(CursorOf(rows[m - |p.rows|])))
  }

  lemma SliceOfReverse(rows: seq<Row>, n: nat, m: nat, shown: seq<Row>)
    requires m <= |rows| == |Reverse(rows)| && shown == Slice(Reverse(rows), n, |rows| - m)
    ensures |shown| == Min(n, m) && forall i :: 0 <= i < |shown| ==> shown[i] == rows[m - 1 - i]
  {
    forall i | 0 <= i < |shown|
      ensures shown[i] == rows[m - 1 - i]
    {
      ReverseAt(rows, |rows| - m + i);
    }
  }

  lemma PageOfReverse(rows: seq<Row>, n: nat, m: nat)
    requires m <= |rows| && |Reverse(rows)| == |rows|
    ensures ShowsUpwards(rows, n, m, PageAt(Reverse(rows), n, |rows| - m))
  {
    SliceOfReverse(rows, n, m, Slice(Reverse(rows), n, |rows| - m));
  }

  lemma StartOfReverse(rows: seq<Row>, cursor: Option<string>, m: nat)
    requires IsCursorOf(rows, cursor, m) && |Reverse(rows)| == |rows|
    ensures cursor == Start(Reverse(rows), |rows| - m)
    ensures m < |rows| ==> '/' !in Reverse(rows)[|rows| - m - 1].id
  {
    if m < |rows| {
      ReverseAt(rows, |rows| - m - 1);
    }
  }

  lemma FetchUpwards(rows: seq<Row>, n: nat, cursor: Option<string>, m: nat)
    requires Ordered(Desc, rows) && IsCursorOf(rows, cursor, m)
    ensures Fetch(Asc, Reverse(rows), n, cursor).Some?
    ensures ShowsUpwards(rows, n, m, Fetch(Asc, Reverse(rows), n, cursor).value)
  {
    ReverseOrdered(rows);
    ReverseLength(rows);
    StartOfReverse(rows, cursor, m);
    FetchIsPageAt(Asc, Reverse(rows), n, |rows| - m, cursor);
    PageOfReverse(rows, n, m);
  }

  /** A backward query over descending rows shows the rows just above its cursor, from the smallest id up. */
  lemma BackwardShowsUpwards(matching: seq<Row>, args: ConnectionArguments, totalCount: nat, m: nat)
    requires Ordered(Desc, matching) && args.first.None? && args.last.Some? && args.after.None? && args.offset.None?
    requires IsCursorOf(matching, args.before, m)
    ensures Answer(matching, args, totalCount).Some?
    ensures ShowsUpwards(matching, args.last.value, m, Answer(matching, args, totalCount).value)
  {
    BackwardAnswer(matching, args, totalCount);
    FetchUpwards(matching, args.last.value, args.before, m);
  }

  /** A plain list: `n` rows from index `o` on, with flags told by the total count. */
  ghost predicate ShowsList(rows: seq<Row>, o: nat, n: nat, totalCount: nat, p: Page) {
    && |p.rows| == (if o < |rows| then Min(n, |rows| - o) else 0)
    && (forall i :: 0 <= i < |p.rows| ==> p.rows[i] == rows[o + i])
    && (p.info.hasNext <==> p.rows != [] && o + n < totalCount)
    && (p.info.hasPrevious <==> p.rows != [] && 1 < o < totalCount)
    && p.info.startCursor == None && p.info.endCursor == None
  }

  /** A query with limit and offset only is a plain list. */
  lemma ListAnswer(matching: seq<Row>, args: ConnectionArguments, totalCount: nat)
    requires args.first.None? && args.last.None? && args.after.None? && args.before.None?
    ensures Answer(matching, args, totalCount).Some?
    ensures ShowsList(matching, if args.offset.Some? then args.offset.value else 0,
                      if args.limit.Some? then args.limit.value else DEFAULT_LIMIT, totalCount,
                      Answer(matching, args, totalCount).value)
  {
    WindowOfAll(matching);
  }

  /** The three common kinds of query without an offset, as fetches. */
  lemma AnswerIsFetch(matching: seq<Row>, args: ConnectionArguments, totalCount: nat, r: Option<Page>)
    requires r == Answer(matching, args, totalCount) && args.offset.None?
    ensures args.first.Some? && args.before.None? ==> r == Fetch(Desc, matching, args.first.value, args.after)
    ensures args.first.None? && args.last.None? && args.after.Some? && args.before.None? ==>
              r == Fetch(Desc, matching, if args.limit.Some? then args.limit.value else DEFAULT_LIMIT, args.after)
    ensures args.first.None? && args.last.Some? && args.after.None? ==>
              r == Fetch(Asc, Reverse(matching), args.last.value, args.before)
  {
    if args.Ascending() {
      if args.after.None? {
        BackwardAnswer(matching, args, totalCount);
      }
    } else if args.before.None? && args.IsCursorBased() {
      ForwardAnswer(matching, args, totalCount);
    }
  }

  /**
   The whole query. A forward page is the page after `after`, a backward page the page before `before` in
   ascending order.
   */
  method FetchMultipleRows(matching: seq<Row>, args: ConnectionArguments, totalCount: nat) returns (r: Option<Page>)
    ensures r == Answer(matching, args, totalCount)
    ensures args.first.Some? && args.before.None? && args.offset.None? ==>
              r == Fetch(Desc, matching, args.first.value, args.after)
    ensures args.first.None? && args.last.None? && args.after.Some? && args.before.None? && args.offset.None? ==>
              r == Fetch(Desc, matching, if args.limit.Some? then args.limit.value else DEFAULT_LIMIT, args.after)
    ensures args.first.None? && args.last.Some? && args.after.None? && args.offset.None? && Ordered(Desc, matching) ==>
              forall m: nat :: IsCursorOf(matching, args.before, m) ==>
                r.Some? && ShowsUpwards(matching, args.last.value, m, r.value)
    ensures args.first.None? && args.last.None? && args.after.None? && args.before.None? ==>
              r.Some? && ShowsList(matching, if args.offset.Some? then args.offset.value else 0,
                                   if args.limit.Some? then args.limit.value else DEFAULT_LIMIT, totalCount, r.value)
  {
    var selected := SelectRows(matching, args);
    r := None;
    if selected.Some? {
      var p := QueryPage(selected.value, args, totalCount);
      r := Some(p);
    }
    if args.offset.None? {
      AnswerIsFetch(matching, args, totalCount, r);
    }
    AnswerRowByRow(matching, args, totalCount);
  }

  lemma AnswerRowByRow(matching: seq<Row>, args: ConnectionArguments, totalCount: nat)
    ensures args.first.None? && args.last.Some? && args.after.None? && args.offset.None? && Ordered(Desc, matching) ==>
              var r := Answer(matching, args, totalCount);
              forall m: nat :: IsCursorOf(matching, args.before, m) ==>
                r.Some? && ShowsUpwards(matching, args.last.value, m, r.value)
    ensures args.first.None? && args.last.None? && args.after.None? && args.before.None? ==>
              var r := Answer(matching, args, totalCount);
              r.Some? && ShowsList(matching, if args.offset.Some? then args.offset.value else 0,
                                   if args.limit.Some? then args.limit.value else DEFAULT_LIMIT, totalCount, r.value)
  {
    if args.first.None? && args.last.Some? && args.after.None? && args.offset.None? && Ordered(Desc, matching) {
      forall m: nat | IsCursorOf(matching, args.before, m)
        ensures Answer(matching, args, totalCount).Some?
        ensures ShowsUpwards(matching, args.last.value, m, Answer(matching, args, totalCount).value)
      {
        BackwardShowsUpwards(matching, args, totalCount, m);
      }
    }
    if args.first.None? && args.last.None? && args.after.None? && args.before.None? {
      ListAnswer(matching, args, totalCount);
    }
  }
}
