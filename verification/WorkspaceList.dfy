/**
 The fleet list (apps/api/src/brandwell-management.ts): each request returns one page of the
 workspaces after its cursor, and a cursor when more remain.
 */
module WorkspaceList {
  import opened Options
  import opened WorkspaceCursor

  datatype Row = Row(createdAt: Instant, id: string)
  type Table = seq<Row>

  /** `a` is a later instant than `b`. */
  predicate Later(a: Instant, b: Instant) {
    a.year > b.year || (a.year == b.year &&
    (a.month > b.month || (a.month == b.month &&
    (a.day > b.day || (a.day == b.day &&
    (a.hour > b.hour || (a.hour == b.hour &&
    (a.minute > b.minute || (a.minute == b.minute &&
    (a.second > b.second || (a.second == b.second && a.milli > b.milli)))))))))))
  }

  predicate TextLess(a: string, b: string) {
    b != "" && (a == "" || a[0] < b[0] || (a[0] == b[0] && TextLess(a[1..], b[1..])))
  }

  /** A number that grows with the instant: months as if they had 31 days. */
  function Rank(t: Instant): int {
    (((((t.year * 12 + t.month) * 31 + t.day) * 24 + t.hour) * 60 + t.minute) * 60 + t.second) * 1000 + t.milli
  }

  /** The order of instants is that of time, field by field. */
  lemma LaterExactly(a: Instant, b: Instant)
    requires IsInstant(a) && IsInstant(b)
    ensures Later(a, b) <==> Rank(a) > Rank(b)
  {
  }

  /** The order of ids: a proper prefix, or the lesser character where they first differ. */
  lemma {:induction false} TextLessExactly(a: string, b: string)
    ensures TextLess(a, b) <==> a < b || exists i :: 0 <= i < |a| && i < |b| && a[..i] == b[..i] && a[i] < b[i]
  {
    if a != "" && b != "" && a[0] == b[0] {
      TextLessExactly(a[1..], b[1..]);
      assert a == [a[0]] + a[1..] && b == [b[0]] + b[1..];
      if i :| 0 <= i < |a[1..]| && i < |b[1..]| && a[1..][..i] == b[1..][..i] && a[1..][i] < b[1..][i] {
        assert a[..i + 1] == [a[0]] + a[1..][..i] && b[..i + 1] == [b[0]] + b[1..][..i];
        assert a[..i + 1] == b[..i + 1] && a[i + 1] < b[i + 1];
      }
      if i :| 0 <= i < |a| && i < |b| && a[..i] == b[..i] && a[i] < b[i] {
        assert a[1..][..i - 1] == a[..i][1..] && b[1..][..i - 1] == b[..i][1..];
        assert a[1..][i - 1] < b[1..][i - 1];
      }
    } else if a != "" && b != "" {
      assert a[..0] == b[..0];
      if i :| 0 < i < |a| && i < |b| && a[..i] == b[..i] {
        assert a[..i][0] == b[..i][0];
      }
    }
  }

  /** `createdAt` descending, then `id` ascending. */
  predicate Precedes(a: Row, b: Row) {
    Later(a.createdAt, b.createdAt) || (a.createdAt == b.createdAt && TextLess(a.id, b.id))
  }

  lemma {:induction false} TextLessTotal(a: string, b: string)
    ensures a != b ==> (TextLess(a, b) <==> !TextLess(b, a))
  {
    if a != "" && b != "" {
      TextLessTotal(a[1..], b[1..]);
      assert a == [a[0]] + a[1..] && b == [b[0]] + b[1..];
    }
  }

  /** Of two different rows exactly one comes first, and that is the newer one. */
  lemma PrecedesTotal(a: Row, b: Row)
    requires a != b && IsInstant(a.createdAt) && IsInstant(b.createdAt)
    ensures Precedes(a, b) <==> !Precedes(b, a)
    ensures Rank(a.createdAt) > Rank(b.createdAt) ==> Precedes(a, b)
    ensures a.createdAt == b.createdAt ==> (Precedes(a, b) <==> TextLess(a.id, b.id))
  {
    LaterExactly(a.createdAt, b.createdAt);
    LaterExactly(b.createdAt, a.createdAt);
    TextLessTotal(a.id, b.id);
  }

  ghost predicate Ordered(t: Table) {
    forall i, j :: 0 <= i < j < |t| ==> Precedes(t[i], t[j])
  }

  /** A table as the database holds it, in order. */
  ghost predicate Listed(t: Table) {
    Ordered(t) && forall r :: r in t ==> IsInstant(r.createdAt) && Printable(r.id)
  }

  lemma TextLessTransitive(a: string, b: string, c: string)
    requires TextLess(a, b) && TextLess(b, c)
    ensures TextLess(a, c)
  {
  }

  lemma PrecedesTransitive(a: Row, b: Row, c: Row)
    requires Precedes(a, b) && Precedes(b, c)
    ensures Precedes(a, c)
  {
    if a.createdAt == b.createdAt == c.createdAt && TextLess(a.id, b.id) && TextLess(b.id, c.id) {
      TextLessTransitive(a.id, b.id, c.id);
    }
  }

  lemma {:induction false} NotBeforeItself(a: string)
    ensures !TextLess(a, a)
  {
    if a != "" {
      NotBeforeItself(a[1..]);
    }
  }

  /** The `where` clause: no cursor, or strictly after it in the list's order. */
  predicate Matches(c: Option<Cursor>, r: Row) {
    c.None? || Precedes(Row(c.value.createdAt, c.value.id), r)
  }

  function Matching(t: Table, c: Option<Cursor>): Table {
    if t == [] then []
    else Matching(t[..|t| - 1], c) + if Matches(c, t[|t| - 1]) then [t[|t| - 1]] else []
  }

  /** `Number(limit ?? 50)`, absent when not finite, truncated toward zero and clamped. */
  function BoundedLimit(parsed: Option<real>): (limit: nat)
    ensures 1 <= limit <= 100
    ensures parsed == None ==> limit == 50
    ensures parsed.Some? && parsed.value < 1.0 ==> limit == 1
    ensures parsed.Some? && parsed.value >= 101.0 ==> limit == 100
    ensures parsed.Some? && 1.0 <= parsed.value < 101.0 ==> limit as real <= parsed.value < limit as real + 1.0
  {
    if parsed.None? then 50
    else
      var truncated := if parsed.value >= 0.0 then parsed.value.Floor else -(-parsed.value).Floor;
      if truncated < 1 then 1 else if truncated > 100 then 100 else truncated
  }

  // ----- one request

  datatype Page = Page(rows: Table, next: Option<Cursor>)

  /** The query and its cut: `take` is one more than the limit. */
  function PageAfter(t: Table, limit: nat, c: Option<Cursor>): Page
    requires limit >= 1
  {
    var matching := Matching(t, c);
    var rows := if |matching| > limit + 1 then matching[..limit + 1] else matching;
    if |rows| > limit then Page(rows[..limit], Some(CursorOf(rows[limit - 1])))
    else Page(rows, None)
  }

  function CursorOf(r: Row): Cursor {
    Cursor(r.createdAt, r.id)
  }

  datatype Response = Listing(workspaces: Table, hasMore: bool, nextCursor: Option<string>) | BadRequest

  function ListWorkspaces(t: Table, parsedLimit: Option<real>, cursorText: Option<string>): Response
    requires Listed(t)
  {
    var input := WorkspaceCursorInput(cursorText);
    if input.Invalid? then BadRequest
    else
      var page := PageAfter(t, BoundedLimit(parsedLimit), if input.From? then Some(input.cursor) else None);
      if page.next.None? then Listing(page.rows, false, None)
      else
        PageAfterMatching(t, BoundedLimit(parsedLimit), if input.From? then Some(input.cursor) else None);
        Listing(page.rows, true, Some(EncodeWorkspaceCursor(page.next.value)))
  }

  /**
   The cursor text a response hands out is read back as the cursor of its last row, exactly if that row's id
   is safe.
   */
  lemma NextCursorNamesLastRow(t: Table, parsedLimit: Option<real>, text: Option<string>, c: Option<Cursor>)
    requires Listed(t)
    ensures WorkspaceCursorInput(text) == InputOf(c) ==>
              var resp, page := ListWorkspaces(t, parsedLimit, text), PageAfter(t, BoundedLimit(parsedLimit), c);
              && resp.Listing? && resp.workspaces == page.rows && resp.hasMore == page.next.Some?
              && resp.nextCursor.Some? == page.next.Some?
              && WorkspaceCursorInput(resp.nextCursor)
                 == if page.next.None? || CursorSafe(page.next.value.id) then InputOf(page.next) else Invalid
  {
    PageAfterMatching(t, BoundedLimit(parsedLimit), c);
    var page := PageAfter(t, BoundedLimit(parsedLimit), c);
    if page.next.Some? {
      CursorRoundTrip(page.next.value);
    }
  }

  function InputOf(c: Option<Cursor>): CursorInput {
    if c.None? then NoCursor else From(c.value)
  }

  lemma {:induction false} MatchingMembers(t: Table, c: Option<Cursor>)
    ensures forall r :: r in Matching(t, c) <==> r in t && Matches(c, r)
  {
    if t != [] {
      MatchingMembers(t[..|t| - 1], c);
      assert t == t[..|t| - 1] + [t[|t| - 1]];
    }
  }

  lemma {:induction false} MatchingOrdered(t: Table, c: Option<Cursor>)
    requires Ordered(t)
    ensures Ordered(Matching(t, c))
  {
    if t != [] {
      var init, last := t[..|t| - 1], t[|t| - 1];
      MatchingOrdered(init, c);
      MatchingMembers(init, c);
      forall i | 0 <= i < |Matching(init, c)| ensures Precedes(Matching(init, c)[i], last) {
        assert Matching(init, c)[i] in init;
      }
    }
  }

  lemma PageAfterMatching(t: Table, limit: nat, c: Option<Cursor>)
    requires Ordered(t) && limit >= 1
    ensures var page, matching := PageAfter(t, limit, c), Matching(t, c);
            && Ordered(matching)
            && (page.next.None? ==> page.rows == matching)
            && (page.next.Some? ==>
                  && |matching| > limit && page.rows == matching[..limit]
                  && page.next.value == CursorOf(matching[limit - 1]) && matching[limit - 1] in t)
  {
    MatchingMembers(t, c);
    MatchingOrdered(t, c);
    var matching := Matching(t, c);
    if |matching| > limit {
      assert matching[..limit + 1][..limit] == matching[..limit];
      assert matching[limit - 1] in matching;
    }
  }

  // ----- following the cursors

  datatype Visit = Visit(rows: Table, finished: bool)

  /** A client's requests in turn, the table being `tables[i]` at the i-th; one whose cursor is unsafe is refused. */
  function Follow(tables: seq<Table>, limit: nat, c: Option<Cursor>): Visit
    requires limit >= 1
  {
    if tables == [] then Visit([], false)
    else
      var page := PageAfter(tables[0], limit, c);
      if page.next.None? then Visit(page.rows, true)
      else if !CursorSafe(page.next.value.id) then Visit(page.rows, false)
      else
        var rest := Follow(tables[1..], limit, page.next);
        Visit(page.rows + rest.rows, rest.finished)
  }

  /** The same through the responses' cursor texts. */
  function FollowTexts(tables: seq<Table>, parsedLimit: Option<real>, text: Option<string>): Visit
    requires forall t :: t in tables ==> Listed(t)
  {
    if tables == [] then Visit([], false)
    else
      match ListWorkspaces(tables[0], parsedLimit, text)
      case BadRequest => Visit([], false)
      case Listing(rows, _, next) =>
        if next.None? then Visit(rows, true)
        else
          var rest := FollowTexts(tables[1..], parsedLimit, next);
          Visit(rows + rest.rows, rest.finished)
  }

  /** Through the texts exactly that is seen: requests are refused after an unsafe row, and nowhere else. */
  lemma {:induction false} TextsCarryTheCursor(tables: seq<Table>, parsedLimit: Option<real>, text: Option<string>,
                                               c: Option<Cursor>)
    requires forall t :: t in tables ==> Listed(t)
    ensures WorkspaceCursorInput(text) == InputOf(c) ==>
              FollowTexts(tables, parsedLimit, text) == Follow(tables, BoundedLimit(parsedLimit), c)
  {
    if tables != [] && WorkspaceCursorInput(text) == InputOf(c) {
      NextCursorNamesLastRow(tables[0], parsedLimit, text, c);
      var resp := ListWorkspaces(tables[0], parsedLimit, text);
      if resp.nextCursor.Some? && tables[1..] != [] && WorkspaceCursorInput(resp.nextCursor).Invalid? {
        assert ListWorkspaces(tables[1..][0], parsedLimit, resp.nextCursor).BadRequest?;
      } else if resp.nextCursor.Some? {
        TextsCarryTheCursor(tables[1..], parsedLimit, resp.nextCursor,
                            PageAfter(tables[0], BoundedLimit(parsedLimit), c).next);
      }
    }
  }

  /**
   However the table changes between requests, a client never sees a row twice or out of order,
   and one that reaches the end has seen every row that was there throughout.
   */
  lemma {:induction false} FollowVisitsInOrder(tables: seq<Table>, limit: nat, c: Option<Cursor>)
    requires limit >= 1 && forall t :: t in tables ==> Ordered(t)
    ensures var visit := Follow(tables, limit, c);
            && Ordered(visit.rows)
            && (forall r :: r in visit.rows ==> Matches(c, r))
            && (visit.finished ==>
                  forall r | (forall t :: t in tables ==> r in t) && Matches(c, r) :: r in visit.rows)
  {
    if tables != [] {
      var t := tables[0];
      assert t in tables;
      PageAfterMatching(t, limit, c);
      MatchingMembers(t, c);
      var page := PageAfter(t, limit, c);
      if page.next.Some? {
        FollowVisitsInOrder(tables[1..], limit, page.next);
        var rest := Follow(tables[1..], limit, page.next);
        JoinPages(page.rows, rest.rows, c);
        forall r | rest.finished && (forall x :: x in tables ==> r in x) && Matches(c, r)
          ensures r in page.rows + rest.rows
        {
          SeenOrLater(t, limit, c, r);
          assert forall x :: x in tables[1..] ==> x in tables;
        }
      }
    }
  }

  lemma SeenOrLater(t: Table, limit: nat, c: Option<Cursor>, r: Row)
    requires Ordered(t) && limit >= 1 && r in t && Matches(c, r) && PageAfter(t, limit, c).next.Some?
    ensures r in PageAfter(t, limit, c).rows || Matches(PageAfter(t, limit, c).next, r)
  {
    PageAfterMatching(t, limit, c);
    MatchingMembers(t, c);
    var matching := Matching(t, c);
    var j :| 0 <= j < |matching| && matching[j] == r;
    if j < limit {
      assert matching[..limit][j] == r;
    }
  }

  lemma JoinPages(page: Table, rest: Table, c: Option<Cursor>)
    requires page != [] && Ordered(page) && Ordered(rest)
    requires forall r :: r in page ==> Matches(c, r)
    requires forall r :: r in rest ==> Precedes(page[|page| - 1], r)
    ensures Ordered(page + rest)
    ensures forall r :: r in page + rest ==> Matches(c, r)
  {
    var last := page[|page| - 1];
    forall i, j | 0 <= i < |page| && 0 <= j < |rest| ensures Precedes(page[i], rest[j]) {
      assert rest[j] in rest;
      if i < |page| - 1 {
        PrecedesTransitive(page[i], last, rest[j]);
      }
    }
    forall i, j | 0 <= i < j < |page + rest| ensures Precedes((page + rest)[i], (page + rest)[j]) {
    }
    forall b | b in rest ensures Matches(c, b) {
      if c.Some? {
        assert last in page;
        PrecedesTransitive(Row(c.value.createdAt, c.value.id), last, b);
      }
    }
  }

  /** The requests it takes to list `rows` rows. */
  function Requests(rows: nat, limit: nat): nat
    requires limit >= 1
  {
    if rows <= limit then 1 else 1 + Requests(rows - limit, limit)
  }

  function Repeat(t: Table, n: nat): (tables: seq<Table>)
    ensures |tables| == n && forall x :: x in tables ==> x == t
  {
    if n == 0 then [] else [t] + Repeat(t, n - 1)
  }

  /** A page that has a successor ends on a row whose id a cursor can carry. */
  predicate EndsSafely(t: Table, limit: nat, k: nat)
    requires limit >= 1
    decreases |t| - k
  {
    k + limit >= |t| || (CursorSafe(t[k + limit - 1].id) && EndsSafely(t, limit, k + limit))
  }

  /**
   Following the cursors from the start of an unchanging table ends exactly when there are enough requests and
   every page but the last ends safely; then it has listed the table.
   */
  lemma FollowListsAll(t: Table, parsedLimit: Option<real>, n: nat)
    requires Listed(t)
    ensures var visit, limit := FollowTexts(Repeat(t, n), parsedLimit, None), BoundedLimit(parsedLimit);
            && (visit.finished <==> n >= Requests(|t|, limit) && EndsSafely(t, limit, 0))
            && (visit.finished ==> visit.rows == t)
  {
    TextsCarryTheCursor(Repeat(t, n), parsedLimit, None, None);
    FollowFromStart(t, BoundedLimit(parsedLimit), n);
  }

  lemma FollowFromStart(t: Table, limit: nat, n: nat)
    requires Ordered(t) && limit >= 1
    ensures var visit := Follow(Repeat(t, n), limit, None);
            && (visit.finished <==> n >= Requests(|t|, limit) && EndsSafely(t, limit, 0))
            && (visit.finished ==> visit.rows == t)
  {
    FollowFrom(t, limit, n, None, 0);
    SlicesListAll(t, limit, n, 0);
    assert t[0..] == t;
  }

  /** What `n` requests of `limit` rows show of a table from row `k` on. */
  function Slices(t: Table, limit: nat, n: nat, k: nat): Visit
    requires limit >= 1 && k <= |t|
  {
    if n == 0 then Visit([], false)
    else if |t| - k <= limit then Visit(t[k..], true)
    else if !CursorSafe(t[k + limit - 1].id) then Visit(t[k..k + limit], false)
    else var rest := Slices(t, limit, n - 1, k + limit); Visit(t[k..k + limit] + rest.rows, rest.finished)
  }

  lemma {:induction false} SlicesListAll(t: Table, limit: nat, n: nat, k: nat)
    requires limit >= 1 && k <= |t|
    ensures Slices(t, limit, n, k).finished <==> n >= Requests(|t| - k, limit) && EndsSafely(t, limit, k)
    ensures Slices(t, limit, n, k).finished ==> Slices(t, limit, n, k).rows == t[k..]
  {
    if n > 0 && |t| - k > limit {
      SlicesListAll(t, limit, n - 1, k + limit);
      assert t[k..] == t[k..k + limit] + t[k + limit..];
    }
  }

  /** The cursor after which exactly the rows from k on are left. */
  predicate CursorAt(t: Table, c: Option<Cursor>, k: nat) {
    k <= |t| && if k == 0 then c.None? else c == Some(CursorOf(t[k - 1]))
  }

  lemma {:induction false} MatchesSuffix(t: Table, c: Option<Cursor>, k: nat)
    requires Ordered(t) && CursorAt(t, c, k)
    ensures Matching(t, c) == t[k..]
    decreases |t|
  {
    if |t| > k {
      var init := t[..|t| - 1];
      MatchesSuffix(init, c, k);
      assert t[k..] == init[k..] + [t[|t| - 1]];
    } else if k > 0 {
      forall r | r in t ensures !Matches(c, r) {
        NotAfterLast(t, r);
      }
      NothingMatches(t, c);
    }
  }

  lemma NothingMatches(t: Table, c: Option<Cursor>)
    requires forall r :: r in t ==> !Matches(c, r)
    ensures Matching(t, c) == []
  {
  }

  lemma NotAfterLast(t: Table, r: Row)
    requires Ordered(t) && r in t
    ensures !Precedes(t[|t| - 1], r)
  {
    var i :| 0 <= i < |t| && t[i] == r;
    NotBeforeItself(r.id);
    if i < |t| - 1 && Precedes(t[|t| - 1], r) {
      PrecedesTransitive(t[i], t[|t| - 1], r);
    }
  }

  lemma PageFrom(t: Table, limit: nat, c: Option<Cursor>, k: nat)
    requires Ordered(t) && limit >= 1 && CursorAt(t, c, k)
    ensures var page := PageAfter(t, limit, c);
            if |t| - k <= limit then page == Page(t[k..], None)
            else page.rows == t[k..k + limit] && page.next.Some? && CursorAt(t, page.next, k + limit)
  {
    MatchesSuffix(t, c, k);
    PageAfterMatching(t, limit, c);
    if |t| - k > limit {
      assert t[k..][..limit] == t[k..k + limit];
      assert t[k..][limit - 1] == t[k + limit - 1];
    }
  }

  /** One request and those after it. */
  lemma FollowStep(t: Table, limit: nat, n: nat, c: Option<Cursor>, k: nat)
    requires Ordered(t) && limit >= 1 && n >= 1 && CursorAt(t, c, k)
    ensures if |t| - k <= limit then Follow(Repeat(t, n), limit, c) == Visit(t[k..], true)
            else if !CursorSafe(t[k + limit - 1].id) then Follow(Repeat(t, n), limit, c) == Visit(t[k..k + limit],
                                                                                                  false)
            else
              var next := PageAfter(t, limit, c).next;
              var rest := Follow(Repeat(t, n - 1), limit, next);
              && CursorAt(t, next, k + limit)
              && Follow(Repeat(t, n), limit, c) == Visit(t[k..k + limit] + rest.rows, rest.finished)
  {
    PageFrom(t, limit, c, k);
    FollowFirst(t, Repeat(t, n - 1), limit, c);
  }

  lemma {:induction false} FollowFrom(t: Table, limit: nat, n: nat, c: Option<Cursor>, k: nat)
    requires Ordered(t) && limit >= 1 && CursorAt(t, c, k)
    ensures Follow(Repeat(t, n), limit, c) == Slices(t, limit, n, k)
    decreases n
  {
    if n > 0 {
      FollowStep(t, limit, n, c, k);
      if |t| - k <= limit {
        assert Slices(t, limit, n, k) == Visit(t[k..], true);
      } else if !CursorSafe(t[k + limit - 1].id) {
        assert Slices(t, limit, n, k) == Visit(t[k..k + limit], false);
      } else {
        FollowFrom(t, limit, n - 1, PageAfter(t, limit, c).next, k + limit);
        var rest := Slices(t, limit, n - 1, k + limit);
        assert Slices(t, limit, n, k) == Visit(t[k..k + limit] + rest.rows, rest.finished);
      }
    }
  }

  lemma FollowFirst(t: Table, later: seq<Table>, limit: nat, c: Option<Cursor>)
    requires limit >= 1
    ensures var page, visit := PageAfter(t, limit, c), Follow([t] + later, limit, c);
            if page.next.None? then visit == Visit(page.rows, true)
            else if !CursorSafe(page.next.value.id) then visit == Visit(page.rows, false)
            else var rest := Follow(later, limit, page.next);
                 visit == Visit(page.rows + rest.rows, rest.finished)
  {
    assert ([t] + later)[1..] == later;
  }
}
