/**
 Paging through one thread's messages (apps/api/src/thread-message-pages.ts). A table is the
 thread's rows in ascending `seq`, which the database keeps unique within a thread.
 */
module MessagePages {
  import opened Options

  datatype Message = Message(id: string, seqNo: nat)
  type Table = seq<Message>
  datatype Page = Page(messages: seq<Message>, olderCursor: Option<nat>)
  datatype Around = Around(messageId: Option<string>, seqNo: Option<nat>)

  predicate Ascending(t: Table) {
    forall i, j :: 0 <= i < j < |t| ==> t[i].seqNo < t[j].seqNo
  }

  // ----- the queries

  /** The number of rows with `seq` below `bound`. */
  function CountBelow(t: Table, bound: nat): (n: nat)
    ensures n <= |t|
  {
    if t == [] then 0
    else CountBelow(t[..|t| - 1], bound) + if t[|t| - 1].seqNo < bound then 1 else 0
  }

  lemma {:induction false} BelowIsPrefix(t: Table, bound: nat)
    requires Ascending(t)
    ensures forall i :: 0 <= i < |t| ==> (t[i].seqNo < bound <==> i < CountBelow(t, bound))
  {
    if t != [] {
      BelowIsPrefix(t[..|t| - 1], bound);
      assert forall i :: 0 <= i < |t| - 1 ==> t[i] == t[..|t| - 1][i];
    }
  }

  lemma CountBelowMonotone(t: Table, lo: nat, hi: nat)
    requires lo <= hi
    ensures CountBelow(t, lo) <= CountBelow(t, hi)
  {
  }

  lemma CountBelowRow(t: Table, k: nat)
    requires Ascending(t) && k < |t|
    ensures CountBelow(t, t[k].seqNo) == k
  {
    BelowIsPrefix(t, t[k].seqNo);
    assert forall i :: 0 <= i < k ==> t[i].seqNo < t[k].seqNo;
    assert k == 0 || t[k - 1].seqNo < t[k].seqNo;
  }

  function Reverse(s: seq<Message>): seq<Message> {
    seq(|s|, i requires 0 <= i < |s| => s[|s| - 1 - i])
  }

  function Take(s: seq<Message>, n: nat): seq<Message> {
    if n <= |s| then s[..n] else s
  }

  /** Rows strictly older than the cursor; all rows when there is none. */
  function Older(t: Table, before: Option<nat>): Table {
    match before
    case None => t
    case Some(bound) => t[..CountBelow(t, bound)]
  }

  /** `findMany` with an upper bound on `seq`, newest first. */
  function FindNewest(t: Table, before: Option<nat>, take: nat): seq<Message> {
    Take(Reverse(Older(t, before)), take)
  }

  /** `findMany` for `lo <= seq <= hi`, oldest first. */
  function FindWindow(t: Table, lo: nat, hi: nat, take: nat): seq<Message> {
    if CountBelow(t, lo) <= CountBelow(t, hi + 1)
    then Take(t[CountBelow(t, lo)..CountBelow(t, hi + 1)], take)
    else []
  }

  /** `findFirst` by message id. */
  function FindById(t: Table, id: string): Option<nat> {
    if t == [] then None
    else if t[0].id == id then Some(t[0].seqNo)
    else FindById(t[1..], id)
  }

  // ----- what a page must be

  function LastN(s: seq<Message>, n: nat): seq<Message> {
    if |s| <= n then s else s[|s| - n..]
  }

  /** The newest `size` rows older than the cursor, and a cursor exactly when more remain. */
  function PageBefore(t: Table, before: Option<nat>, size: nat): Page {
    var older := Older(t, before);
    Page(LastN(older, size),
         if |older| > size > 0 then Some(older[|older| - size].seqNo) else None)
  }

  /** The `seq` an around-request resolves to. */
  function Target(t: Table, around: Option<Around>): Option<nat> {
    match around
    case None => None
    case Some(a) =>
      if a.seqNo.Some? then a.seqNo
      else if a.messageId.Some? && a.messageId.value != "" then FindById(t, a.messageId.value)
      else None
  }

  /** A run of consecutive rows of the table, with a cursor exactly when older rows exist. */
  ghost predicate IsSlice(t: Table, page: Page, from: nat) {
    && from + |page.messages| <= |t|
    && page.messages == t[from..from + |page.messages|]
    && page.olderCursor == if from > 0 && page.messages != [] then Some(t[from].seqNo) else None
  }

  /** What a resolved around-request promises. */
  ghost predicate IsAroundPage(t: Table, page: Page, target: nat, pageSize: nat) {
    var minSeq := target - Least(target, pageSize / 2);
    && IsSlice(t, page, CountBelow(t, minSeq))
    && |page.messages| <= pageSize
    && (forall m :: m in page.messages ==> minSeq <= m.seqNo <= target + pageSize / 2)
    && (pageSize > 0 ==> forall m :: m in t && minSeq <= m.seqNo <= target ==> m in page.messages)
    && (|page.messages| < pageSize ==>
          forall m :: m in t && minSeq <= m.seqNo <= target + pageSize / 2 ==> m in page.messages)
  }

  /** The first row with the id, if there is one. */
  lemma {:induction false} FindByIdExactly(t: Table, id: string)
    ensures match FindById(t, id)
            case None => forall k :: 0 <= k < |t| ==> t[k].id != id
            case Some(n) =>
              exists k :: 0 <= k < |t| && t[k] == Message(id, n) && forall j :: 0 <= j < k ==> t[j].id != id
  {
    if t != [] && t[0].id != id {
      FindByIdExactly(t[1..], id);
      assert forall k :: 0 < k < |t| ==> t[k] == t[1..][k - 1];
      if FindById(t[1..], id).Some? {
        var k :| 0 <= k < |t[1..]| && t[1..][k] == Message(id, FindById(t[1..], id).value)
                 && forall j :: 0 <= j < k ==> t[1..][j].id != id;
        assert t[k + 1] == Message(id, FindById(t[1..], id).value);
      }
    }
  }

  /** A `seq` wins over an id, an empty id is none, and an id resolves to the `seq` of its row. */
  lemma TargetExactly(t: Table, around: Option<Around>, row: nat)
    requires forall i, j :: 0 <= i < j < |t| ==> t[i].id != t[j].id
    ensures match around
            case None => Target(t, around) == None
            case Some(Around(messageId, Some(n))) => Target(t, around) == Some(n)
            case Some(Around(None, None)) => Target(t, around) == None
            case Some(Around(Some(id), None)) =>
              && (id == "" ==> Target(t, around) == None)
              && (id != "" && row < |t| && t[row].id == id ==> Target(t, around) == Some(t[row].seqNo))
              && ((forall k :: 0 <= k < |t| ==> t[k].id != id) ==> Target(t, around) == None)
  {
    if around.Some? && around.value.messageId.Some? {
      FindByIdExactly(t, around.value.messageId.value);
    }
  }

  lemma OlderExactly(t: Table, before: Option<nat>)
    requires Ascending(t)
    ensures Older(t, before) <= t
    ensures forall m :: m in Older(t, before) <==> m in t && (before.Some? ==> m.seqNo < before.value)
  {
    if before.Some? {
      BelowIsPrefix(t, before.value);
    }
  }

  /** A page holds the newest rows older than the cursor, as many as fit. */
  lemma PageBeforeExactly(t: Table, before: Option<nat>, size: nat)
    ensures var older, page := Older(t, before), PageBefore(t, before, size);
            && |page.messages| == (if |older| <= size then |older| else size)
            && page.messages == older[|older| - |page.messages|..]
            && (page.olderCursor == if |older| > size > 0 then Some(page.messages[0].seqNo) else None)
  {
  }

  method LoadMessagePage(t: Table, before: Option<nat>, pageSize: nat, around: Option<Around>) returns (page: Page)
    requires Ascending(t)
    ensures Target(t, around).None? ==> page == PageBefore(t, before, pageSize)
    ensures Target(t, around).Some? ==> IsAroundPage(t, page, Target(t, around).value, pageSize)
  {
    if around.Some? {
      var targetSeq := around.value.seqNo;
      if targetSeq.None? && around.value.messageId.Some? && around.value.messageId.value != "" {
        targetSeq := FindById(t, around.value.messageId.value);
      }
      if targetSeq.Some? {
        page := LoadWindow(t, targetSeq.value, pageSize);
        return;
      }
    }
    var rows := FindNewest(t, before, pageSize + 1);
    NewestPage(Older(t, before), pageSize);
    var hasOlder := |rows| > pageSize;
    var messages := Reverse(Take(rows, pageSize));
    page := Page(messages, if hasOlder && messages != [] then Some(messages[0].seqNo) else None);
  }

  /** The branch for a resolved target. */
  method LoadWindow(t: Table, targetSeq: nat, pageSize: nat) returns (page: Page)
    requires Ascending(t)
    ensures IsAroundPage(t, page, targetSeq, pageSize)
  {
    var half := pageSize / 2;
    var minSeq := targetSeq - Least(targetSeq, half);
    var maxSeq := targetSeq + half;
    WindowHasRows(t, minSeq, targetSeq, maxSeq, pageSize);
    var rows := FindWindow(t, minSeq, maxSeq, pageSize);
    assert WindowRows(t, rows, minSeq, targetSeq, maxSeq, pageSize);
    var hasOlder := rows != [] && CountBelow(t, rows[0].seqNo) > 0;
    page := Page(rows, if hasOlder then Some(rows[0].seqNo) else None);
    WindowPage(t, targetSeq, pageSize, page);
  }

  /** Taking from the newest end and reversing gives the last rows in order. */
  lemma NewestPage(older: Table, size: nat)
    ensures |Take(Reverse(older), size + 1)| > size <==> |older| > size
    ensures Reverse(Take(Take(Reverse(older), size + 1), size)) == LastN(older, size)
  {
    assert Take(Take(Reverse(older), size + 1), size) == Take(Reverse(older), size);
  }

  /** The rows of a window, as an around-page needs them. */
  ghost predicate WindowRows(t: Table, rows: seq<Message>, lo: nat, target: nat, hi: nat, size: nat) {
    && CountBelow(t, lo) + |rows| <= |t|
    && rows == t[CountBelow(t, lo)..CountBelow(t, lo) + |rows|]
    && |rows| <= size
    && (forall m :: m in rows ==> lo <= m.seqNo <= hi)
    && (size > 0 ==> forall m :: m in t && lo <= m.seqNo <= target ==> m in rows)
    && (|rows| < size ==> forall m :: m in t && lo <= m.seqNo <= hi ==> m in rows)
  }

  lemma WindowHasRows(t: Table, lo: nat, target: nat, hi: nat, size: nat)
    requires Ascending(t) && lo <= target <= hi && target - lo <= size / 2
    ensures WindowRows(t, FindWindow(t, lo, hi, size), lo, target, hi, size)
  {
    WindowIsSlice(t, lo, hi, size);
    WindowIsFull(t, lo, hi, size);
    WindowHolds(t, lo, target, hi, size);
  }

  lemma WindowPage(t: Table, target: nat, pageSize: nat, page: Page)
    requires Ascending(t)
    requires WindowRows(t, page.messages, target - Least(target, pageSize / 2), target, target + pageSize / 2, pageSize)
    requires page.olderCursor == if page.messages != [] && CountBelow(t, page.messages[0].seqNo) > 0
                                 then Some(page.messages[0].seqNo) else None
    ensures IsAroundPage(t, page, target, pageSize)
  {
    SliceCursor(t, page, CountBelow(t, target - Least(target, pageSize / 2)));
  }

  lemma SliceCursor(t: Table, page: Page, from: nat)
    requires Ascending(t) && from + |page.messages| <= |t|
    requires page.messages == t[from..from + |page.messages|]
    requires page.olderCursor == if page.messages != [] && CountBelow(t, page.messages[0].seqNo) > 0
                                 then Some(page.messages[0].seqNo) else None
    ensures IsSlice(t, page, from)
  {
    if page.messages != [] {
      CountBelowRow(t, from);
    }
  }

  function Least(a: nat, b: nat): nat {
    if a <= b then a else b
  }

  lemma WindowIsSlice(t: Table, lo: nat, hi: nat, take: nat)
    requires Ascending(t) && lo <= hi
    ensures CountBelow(t, lo) <= CountBelow(t, hi + 1)
    ensures var rows := FindWindow(t, lo, hi, take);
            && CountBelow(t, lo) + |rows| <= |t|
            && rows == t[CountBelow(t, lo)..CountBelow(t, lo) + |rows|]
            && |rows| <= take
            && (forall m :: m in rows ==> lo <= m.seqNo <= hi)
  {
    CountBelowMonotone(t, lo, hi + 1);
    BelowIsPrefix(t, lo);
    BelowIsPrefix(t, hi + 1);
  }

  /** A window that the take does not fill has every row within its bounds. */
  lemma WindowIsFull(t: Table, lo: nat, hi: nat, take: nat)
    requires Ascending(t) && lo <= hi
    ensures var rows := FindWindow(t, lo, hi, take);
            |rows| < take ==> forall m :: m in t && lo <= m.seqNo <= hi ==> m in rows
  {
    CountBelowMonotone(t, lo, hi + 1);
    BelowIsPrefix(t, lo);
    BelowIsPrefix(t, hi + 1);
    var from, rows := CountBelow(t, lo), FindWindow(t, lo, hi, take);
    forall m | |rows| < take && m in t && lo <= m.seqNo <= hi ensures m in rows {
      var k :| 0 <= k < |t| && t[k] == m;
      assert rows == t[from..CountBelow(t, hi + 1)];
      assert rows[k - from] == m;
    }
  }

  /** Distinct integers leave no more than `target - lo` rows ahead of the target. */
  lemma {:induction false} RowsBetween(t: Table, from: nat, to: nat)
    requires Ascending(t) && from <= to < |t|
    ensures to - from <= t[to].seqNo - t[from].seqNo
  {
    if from < to {
      RowsBetween(t, from, to - 1);
    }
  }

  /** The take never cuts a window short of its target, although the window may be wider. */
  lemma WindowHolds(t: Table, lo: nat, target: nat, hi: nat, size: nat)
    requires Ascending(t) && lo <= target <= hi && target - lo <= size / 2
    ensures size > 0 ==>
              forall m :: m in t && lo <= m.seqNo <= target ==> m in FindWindow(t, lo, hi, size)
  {
    forall m | size > 0 && m in t && lo <= m.seqNo <= target
      ensures m in FindWindow(t, lo, hi, size)
    {
      var k :| 0 <= k < |t| && t[k] == m;
      WindowHoldsRow(t, lo, hi, size, k);
    }
  }

  lemma WindowHoldsRow(t: Table, lo: nat, hi: nat, size: nat, k: nat)
    requires Ascending(t) && k < |t| && lo <= t[k].seqNo <= hi && t[k].seqNo - lo < size
    ensures t[k] in FindWindow(t, lo, hi, size)
  {
    var from := CountBelow(t, lo);
    CountBelowMonotone(t, lo, hi + 1);
    BelowIsPrefix(t, lo);
    BelowIsPrefix(t, hi + 1);
    RowsBetween(t, from, k);
    assert t[from..CountBelow(t, hi + 1)][k - from] == t[k];
    assert FindWindow(t, lo, hi, size)[k - from] == t[k];
  }

  /**
   A page around a row contains it, and rows on either side no further than half a page in `seq`; it is full unless
   it has all of those.
   */
  lemma AroundContainsTarget(t: Table, page: Page, index: nat, pageSize: nat)
    requires Ascending(t) && index < |t| && pageSize >= 1 && IsAroundPage(t, page, t[index].seqNo, pageSize)
    ensures t[index] in page.messages && |page.messages| <= pageSize
    ensures forall m :: m in page.messages ==>
              && m in t && m.seqNo <= t[index].seqNo + pageSize / 2 && t[index].seqNo <= m.seqNo + pageSize / 2
    ensures forall m :: m in t && m.seqNo <= t[index].seqNo <= m.seqNo + pageSize / 2 ==> m in page.messages
    ensures forall m :: m in t && t[index].seqNo <= m.seqNo <= t[index].seqNo + pageSize / 2 ==>
              m in page.messages || |page.messages| == pageSize
  {
  }

  // ----- chaining pages

  lemma CursorBounds(t: Table, before: Option<nat>, size: nat)
    requires Ascending(t) && PageBefore(t, before, size).olderCursor.Some?
    ensures var page := PageBefore(t, before, size);
            && Older(t, before) == Older(t, page.olderCursor) + page.messages
            && |page.messages| == size > 0
  {
    var older := Older(t, before);
    var cut := |older| - size;
    assert t[cut] == older[cut];
    CountBelowRow(t, cut);
  }

  /** Following `olderCursor` back from a cursor, every page in front of the ones before it. */
  function Chain(t: Table, before: Option<nat>, size: nat): Table
    requires Ascending(t)
    decreases |Older(t, before)|
  {
    var page := PageBefore(t, before, size);
    if page.olderCursor.None? then page.messages
    else
      CursorBounds(t, before, size);
      Chain(t, page.olderCursor, size) + page.messages
  }

  /** No gap and no overlap: the chain is exactly the strictly older rows. */
  lemma {:induction false} ChainIsOlder(t: Table, before: Option<nat>, size: nat)
    requires Ascending(t) && size >= 1
    ensures Chain(t, before, size) == Older(t, before)
    decreases |Older(t, before)|
  {
    var page := PageBefore(t, before, size);
    if page.olderCursor.Some? {
      CursorBounds(t, before, size);
      ChainIsOlder(t, page.olderCursor, size);
    }
  }

  /** Paging back from an around-page yields exactly the rows before its first one. */
  lemma AroundThenChain(t: Table, page: Page, from: nat, size: nat)
    requires Ascending(t) && size >= 1 && IsSlice(t, page, from) && page.messages != []
    ensures (if page.olderCursor.None? then [] else Chain(t, page.olderCursor, size)) == t[..from]
  {
    if page.olderCursor.Some? {
      ChainIsOlder(t, page.olderCursor, size);
      CountBelowRow(t, from);
    }
  }

  ghost predicate IsRow(t: Table, seqNo: nat) {
    exists k :: 0 <= k < |t| && t[k].seqNo == seqNo
  }

  lemma OlderUnaffected(t: Table, grown: Table, bound: nat)
    requires Ascending(grown) && t <= grown
    requires IsRow(t, bound)
    ensures Ascending(t) && Older(grown, Some(bound)) == Older(t, Some(bound))
  {
    assert t == grown[..|t|];
    var k :| 0 <= k < |t| && t[k].seqNo == bound;
    CountBelowRow(t, k);
    CountBelowRow(grown, k);
  }

  function Flatten(pages: seq<seq<Message>>): seq<Message> {
    if pages == [] then [] else Flatten(pages[..|pages| - 1]) + pages[|pages| - 1]
  }

  function ReversePages(pages: seq<seq<Message>>): (r: seq<seq<Message>>) {
    if pages == [] then [] else [pages[|pages| - 1]] + ReversePages(pages[..|pages| - 1])
  }

  lemma {:induction false} FlattenFront(page: seq<Message>, rest: seq<seq<Message>>)
    ensures Flatten([page] + rest) == page + Flatten(rest)
  {
    var all := [page] + rest;
    if rest == [] {
      assert all[..0] == [];
      assert Flatten(all) == Flatten(all[..0]) + page;
    } else {
      FlattenFront(page, rest[..|rest| - 1]);
      assert all[..|all| - 1] == [page] + rest[..|rest| - 1];
    }
  }

  /**
   Loads page after page until no cursor is left. Messages appended while it runs are not
   returned; everything that was there at the first load is, once and in order.
   */
  method LoadAllMessages(t: Table, pageSize: nat) returns (all: seq<Message>)
    requires Ascending(t)
    ensures all == if pageSize >= 1 then t else []
  {
    var table := t;
    var pages: seq<seq<Message>> := [];
    var before: Option<nat> := None;
    var more := true;
    while more
      invariant Ascending(table) && t <= table
      invariant more && before.None? ==> table == t
      invariant before.Some? ==> IsRow(t, before.value)
      invariant more && pageSize > 0 ==> Older(t, before) + Flatten(ReversePages(pages)) == t
      invariant !more && pageSize > 0 ==> Flatten(ReversePages(pages)) == t
      invariant pageSize == 0 ==> Flatten(ReversePages(pages)) == []
      decreases more, |Older(t, before)|
    {
      var page := LoadMessagePage(table, before, pageSize, None);
      SamePage(t, table, before, pageSize);
      NextPage(t, before, pageSize, ReversePages(pages));
      assert (pages + [page.messages])[..|pages|] == pages;
      pages := pages + [page.messages];
      before := page.olderCursor;
      more := before.Some?;
      // Other requests may append messages before the next load.
      var grown: Table := *;
      if Ascending(grown) && table <= grown {
        table := grown;
      }
    }
    all := Flatten(ReversePages(pages));
  }

  lemma SamePage(first: Table, grown: Table, before: Option<nat>, size: nat)
    requires Ascending(grown) && first <= grown
    requires before.None? ==> first == grown
    requires before.Some? ==> IsRow(first, before.value)
    ensures PageBefore(grown, before, size) == PageBefore(first, before, size)
  {
    if before.Some? {
      OlderUnaffected(first, grown, before.value);
    }
  }

  lemma NextPage(t: Table, before: Option<nat>, size: nat, later: seq<seq<Message>>)
    requires Ascending(t)
    ensures var page := PageBefore(t, before, size);
            && (page.olderCursor.Some? ==>
                  && |Older(t, page.olderCursor)| < |Older(t, before)|
                  && Older(t, page.olderCursor) + Flatten([page.messages] + later) == Older(t, before) + Flatten(later)
                  && IsRow(t, page.olderCursor.value))
            && (page.olderCursor.None? && size > 0 ==>
                  Flatten([page.messages] + later) == Older(t, before) + Flatten(later))
            && (size == 0 ==> Flatten([page.messages] + later) == Flatten(later))
  {
    var page := PageBefore(t, before, size);
    FlattenFront(page.messages, later);
    if page.olderCursor.Some? {
      CursorBounds(t, before, size);
      Regroup(Older(t, page.olderCursor), page.messages, Flatten(later));
      var cut := |Older(t, before)| - size;
      assert t[cut].seqNo == page.olderCursor.value;
    }
  }

  lemma Regroup(a: seq<Message>, b: seq<Message>, c: seq<Message>)
    ensures a + (b + c) == (a + b) + c
  {
  }
}
