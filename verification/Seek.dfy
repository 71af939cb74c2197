/** Seek pagination over any strict total order: pages are cut after or before a boundary row. */
module Seek {
  import opened Text

  /** A comparison, and the rows that may ever be compared. */
  datatype Order<!R> = Order(less: (R, R) -> bool, universe: iset<R>)

  /** less is a strict total order on the universe. */
  ghost predicate StrictTotal<R(!new)>(order: Order<R>) {
    && (forall a | a in order.universe :: !order.less(a, a))
    && (forall a, b | a in order.universe && b in order.universe && a != b :: order.less(a, b) || order.less(b, a))
    && (forall a, b, c | a in order.universe && b in order.universe && c in order.universe ::
          order.less(a, b) && order.less(b, c) ==> order.less(a, c))
  }

  /** A listing of rows of the universe in strictly increasing order. */
  ghost predicate Listing<R(!new)>(order: Order<R>, s: seq<R>) {
    && (forall r <- s :: r in order.universe)
    && forall i, j :: 0 <= i < j < |s| ==> order.less(s[i], s[j])
  }

  // ---------------------------------------------------------------- pages

  /** sort.Search: the first index that satisfies p, or the length. */
  function Search<R>(s: seq<R>, p: R -> bool): (n: nat)
    ensures n <= |s|
    ensures forall i :: 0 <= i < n ==> !p(s[i])
    ensures n < |s| ==> p(s[n])
  {
    if s == [] || p(s[0]) then 0 else 1 + Search(s[1..], p)
  }

  /** The rows past a boundary, and those not short of one. */
  function Beyond<R(!new)>(order: Order<R>, after: R): (p: R -> bool)
    ensures forall r: R :: p(r) <==> order.less(after, r)
  {
    r => order.less(after, r)
  }

  function NotBefore<R(!new)>(order: Order<R>, before: R): (p: R -> bool)
    ensures forall r: R :: p(r) <==> !order.less(r, before)
  {
    r => !order.less(r, before)
  }

  function Min(a: int, b: int): int { if a < b then a else b }

  function Max(a: int, b: int): int { if a < b then b else a }

  function ForwardPage<R(!new)>(order: Order<R>, rows: seq<R>, after: Option<R>, size: nat): seq<R> {
    var start := if after.Some? then Search(rows, Beyond(order, after.value)) else 0;
    rows[start..Min(start + size, |rows|)]
  }

  function BackwardPage<R(!new)>(order: Order<R>, rows: seq<R>, before: Option<R>, size: nat): seq<R> {
    var end := if before.Some? then Search(rows, NotBefore(order, before.value)) else |rows|;
    rows[Max(0, end - size)..end]
  }

  /** The rows past a boundary are the tail of a listing. */
  lemma StartOfPage<R(!new)>(order: Order<R>, rows: seq<R>, after: R)
    requires StrictTotal(order) && Listing(order, rows) && after in order.universe
    ensures var start := Search(rows, Beyond(order, after));
      && (forall i :: start <= i < |rows| ==> order.less(after, rows[i]))
      && (forall i :: 0 <= i < start ==> rows[i] == after || order.less(rows[i], after))
  {
    var start := Search(rows, Beyond(order, after));
    forall i | start <= i < |rows| ensures order.less(after, rows[i]) {
      assert rows[i] in rows && rows[start] in rows;
    }
    forall i | 0 <= i < start ensures rows[i] == after || order.less(rows[i], after) {
      assert rows[i] in rows;
    }
  }

  lemma EndOfPage<R(!new)>(order: Order<R>, rows: seq<R>, before: R)
    requires StrictTotal(order) && Listing(order, rows) && before in order.universe
    ensures var end := Search(rows, NotBefore(order, before));
      && (forall i :: 0 <= i < end ==> order.less(rows[i], before))
      && (forall i :: end <= i < |rows| ==>
            !order.less(rows[i], before) && (rows[i] == before || order.less(before, rows[i])))
  {
    var end := Search(rows, NotBefore(order, before));
    forall i | end <= i < |rows|
      ensures !order.less(rows[i], before) && (rows[i] == before || order.less(before, rows[i])) {
      assert rows[i] in rows && rows[end] in rows;
    }
  }

  // ---------------------------------------------------------------- an unchanging table

  /** The rows read so far, and the boundary they leave. */
  ghost predicate ReadSoFar<R>(rows: seq<R>, result: seq<R>, after: Option<R>) {
    && |result| <= |rows| && result == rows[..|result|]
    && after == if result == [] then None else Some(rows[|result| - 1])
  }

  /** Forward traversal of an unchanging table visits the whole listing, for every page size. */
  method TraverseForward<R(!new)>(order: Order<R>, rows: seq<R>, size: nat) returns (result: seq<R>)
    requires StrictTotal(order) && Listing(order, rows)
    ensures result == if size == 0 then [] else rows
  {
    result := [];
    var after: Option<R> := None;
    while true
      invariant ReadSoFar(rows, result, after)
      invariant size == 0 ==> result == []
      decreases |rows| - |result|
    {
      hide StrictTotal, Listing, ForwardPage, ReadSoFar;
      var page := ForwardPage(order, rows, after, size);
      StepForward(order, rows, result, after, size);
      if page == [] {
        return;
      }
      result := result + page;
      after := Some(page[|page| - 1]);
    }
  }

  /** One round of the loop. */
  lemma StepForward<R(!new)>(order: Order<R>, rows: seq<R>, result: seq<R>, after: Option<R>, size: nat)
    requires StrictTotal(order) && Listing(order, rows) && ReadSoFar(rows, result, after)
    ensures var page := ForwardPage(order, rows, after, size);
      && (page == [] <==> size == 0 || result == rows)
      && (page != [] ==> ReadSoFar(rows, result + page, Some(page[|page| - 1])) && |result| < |result + page| <= |rows|)
  {
    hide StrictTotal, Listing, ForwardPage;
    NextPage(order, rows, |result|, size);
  }

  /** The page after the first n rows of a listing. */
  lemma NextPage<R(!new)>(order: Order<R>, rows: seq<R>, n: nat, size: nat)
    requires StrictTotal(order) && Listing(order, rows) && n <= |rows|
    ensures ForwardPage(order, rows, if n == 0 then None else Some(rows[n - 1]), size) == rows[n..Min(n + size, |rows|)]
  {
    if n > 0 {
      NextStart(order, rows, n);
    }
  }

  lemma NextStart<R(!new)>(order: Order<R>, rows: seq<R>, n: nat)
    requires StrictTotal(order) && Listing(order, rows) && 0 < n <= |rows|
    ensures Search(rows, Beyond(order, rows[n - 1])) == n
  {
    assert rows[n - 1] in rows;
    StartOfPage(order, rows, rows[n - 1]);
    assert !order.less(rows[n - 1], rows[n - 1]);
  }

  lemma PreviousEnd<R(!new)>(order: Order<R>, rows: seq<R>, n: nat)
    requires StrictTotal(order) && Listing(order, rows) && n < |rows|
    ensures Search(rows, NotBefore(order, rows[n])) == n
  {
    assert rows[n] in rows;
    EndOfPage(order, rows, rows[n]);
    assert !order.less(rows[n], rows[n]);
  }

  /** The pages in the reverse of the order they were read, as one list. */
  function Reassembled<R>(pages: seq<seq<R>>): seq<R> {
    if pages == [] then [] else pages[|pages| - 1] + Reassembled(pages[..|pages| - 1])
  }

  method Reassemble<R>(pages: seq<seq<R>>) returns (result: seq<R>)
    ensures result == Reassembled(pages)
  {
    result := [];
    var index := |pages|;
    assert pages[..index] == pages && [] + Reassembled(pages) == Reassembled(pages);
    while index > 0
      invariant 0 <= index <= |pages|
      invariant result + Reassembled(pages[..index]) == Reassembled(pages)
    {
      index := index - 1;
      assert pages[..index + 1][..index] == pages[..index];
      ConcatAssociates(result, pages[index], Reassembled(pages[..index]));
      result := result + pages[index];
    }
    assert pages[..0] == [];
    assert result + [] == result;
  }

  /** Backward traversal, its pages put back in order, gives the same listing. */
  method TraverseBackward<R(!new)>(order: Order<R>, rows: seq<R>, size: nat) returns (result: seq<R>)
    requires StrictTotal(order) && Listing(order, rows)
    ensures result == if size == 0 then [] else rows
  {
    var pages := ReadBackward(order, rows, size);
    result := Reassemble(pages);
  }

  /** The pages read so far hold everything from row end on, and leave this boundary. */
  ghost predicate ReadFrom<R>(rows: seq<R>, pages: seq<seq<R>>, before: Option<R>, end: nat) {
    && end <= |rows| && Reassembled(pages) == rows[end..]
    && before == if end == |rows| then None else Some(rows[end])
  }

  method ReadBackward<R(!new)>(order: Order<R>, rows: seq<R>, size: nat) returns (pages: seq<seq<R>>)
    requires StrictTotal(order) && Listing(order, rows)
    ensures Reassembled(pages) == if size == 0 then [] else rows
  {
    pages := [];
    var before: Option<R> := None;
    ghost var end: nat := |rows|;
    while true
      invariant ReadFrom(rows, pages, before, end)
      invariant size == 0 ==> end == |rows|
      decreases end
    {
      hide StrictTotal, Listing, BackwardPage, ReadFrom;
      var page := BackwardPage(order, rows, before, size);
      StepBackward(order, rows, pages, before, end, size);
      if page == [] {
        return;
      }
      pages := pages + [page];
      before := Some(page[0]);
      end := end - |page|;
    }
  }

  /** One round of the loop. */
  lemma StepBackward<R(!new)>(order: Order<R>, rows: seq<R>, pages: seq<seq<R>>, before: Option<R>, end: nat, size: nat)
    requires StrictTotal(order) && Listing(order, rows) && ReadFrom(rows, pages, before, end)
    ensures var page := BackwardPage(order, rows, before, size);
      && (page == [] <==> size == 0 || end == 0) && (end == 0 ==> Reassembled(pages) == rows)
      && (end == |rows| ==> Reassembled(pages) == [])
      && |page| <= end && (page != [] ==> ReadFrom(rows, pages + [page], Some(page[0]), end - |page|))
  {
    if before.Some? {
      PreviousEnd(order, rows, end);
    }
    hide StrictTotal, Listing;
    var page := BackwardPage(order, rows, before, size);
    assert page == rows[Max(0, end - size)..end];
    assert (pages + [page])[..|pages|] == pages;
    assert rows[end - |page|..] == page + rows[end..];
  }

  // ---------------------------------------------------------------- a changing table

  ghost predicate Listings<R(!new)>(order: Order<R>, tables: seq<seq<R>>) {
    forall i :: 0 <= i < |tables| ==> Listing(order, tables[i])
  }

  function Last<R>(s: seq<R>): Option<R> { if s == [] then None else Some(s[|s| - 1]) }

  /** A session reads page after page; tables[i] is the listing the i-th page is read from, with
      whatever was inserted and deleted since the page before. Everything served by k pages: */
  function Served<R(!new)>(order: Order<R>, tables: seq<seq<R>>, size: nat, k: nat): seq<R>
    requires k <= |tables|
  {
    if k == 0 then []
    else
      var before := Served(order, tables, size, k - 1);
      before + ForwardPage(order, tables[k - 1], Last(before), size)
  }

  /** The page after the first k. */
  function PageAt<R(!new)>(order: Order<R>, tables: seq<seq<R>>, size: nat, k: nat): seq<R>
    requires k < |tables|
  {
    ForwardPage(order, tables[k], Last(Served(order, tables, size, k)), size)
  }

  lemma ListingConcat<R(!new)>(order: Order<R>, a: seq<R>, b: seq<R>)
    requires StrictTotal(order) && Listing(order, a) && Listing(order, b)
    requires a != [] && b != [] ==> order.less(a[|a| - 1], b[0])
    ensures Listing(order, a + b)
  {
    var c := a + b;
    forall i, j | 0 <= i < j < |c| ensures order.less(c[i], c[j]) {
      if i < |a| <= j {
        assert c[i] in a && c[j] in b && a[|a| - 1] in a && b[0] in b;
        assert c[i] == a[i] && c[j] == b[j - |a|];
        assert i < |a| - 1 ==> order.less(a[i], a[|a| - 1]);
        assert j > |a| ==> order.less(b[0], b[j - |a|]);
        assert order.less(a[i], b[0]);
      } else if i >= |a| {
        assert c[i] == b[i - |a|] && c[j] == b[j - |a|];
      }
    }
  }

  /** A page lists rows beyond the boundary. */
  lemma PageIsBeyond<R(!new)>(order: Order<R>, rows: seq<R>, after: Option<R>, size: nat)
    requires StrictTotal(order) && Listing(order, rows) && (after.Some? ==> after.value in order.universe)
    ensures var page := ForwardPage(order, rows, after, size);
      Listing(order, page) && (after.Some? && page != [] ==> order.less(after.value, page[0]))
  {
    if after.Some? {
      StartOfPage(order, rows, after.value);
    }
  }

  /** A row beyond the boundary is on the page when the page has room left or ends further on. */
  lemma PageCovers<R(!new)>(order: Order<R>, rows: seq<R>, after: Option<R>, size: nat, r: R)
    requires StrictTotal(order) && Listing(order, rows) && (after.Some? ==> after.value in order.universe)
    requires r in rows && (after.Some? ==> order.less(after.value, r))
    requires var page := ForwardPage(order, rows, after, size);
      |page| < size || (page != [] && !order.less(page[|page| - 1], r))
    ensures r in ForwardPage(order, rows, after, size)
  {
    var start := if after.Some? then Search(rows, Beyond(order, after.value)) else 0;
    var page := ForwardPage(order, rows, after, size);
    assert forall i :: 0 <= i < |page| ==> page[i] == rows[start + i];
    var i :| 0 <= i < |rows| && rows[i] == r;
    assert start <= i < start + |page|;
    assert r == page[i - start];
  }

  /** page is cut out of the rows: what comes before it is not past the boundary, everything from it on is, and
      it is full unless nothing is left over. */
  ghost predicate CutAfter<R(!new)>(order: Order<R>, rows: seq<R>, after: Option<R>, size: nat, short: seq<R>,
                                    page: seq<R>, rest: seq<R>) {
    && rows == short + page + rest
    && (short != [] ==> after.Some?) && (forall r <- short :: after.Some? ==> !order.less(after.value, r))
    && (forall r <- page + rest :: after.Some? ==> order.less(after.value, r))
    && |page| <= size && (rest != [] ==> |page| == size)
  }

  ghost predicate CutBefore<R(!new)>(order: Order<R>, rows: seq<R>, before: Option<R>, size: nat, rest: seq<R>,
                                     page: seq<R>, long: seq<R>) {
    && rows == rest + page + long
    && (long != [] ==> before.Some?) && (forall r <- long :: before.Some? ==> !order.less(r, before.value))
    && (forall r <- rest + page :: before.Some? ==> order.less(r, before.value))
    && |page| <= size && (rest != [] ==> |page| == size)
  }

  lemma SearchSplits<R(!new)>(s: seq<R>, p: R -> bool, head: seq<R>, tail: seq<R>)
    requires s == head + tail && (forall r <- head :: !p(r)) && forall r <- tail :: p(r)
    ensures Search(s, p) == |head|
  {
    forall i | 0 <= i < |head| ensures !p(s[i]) {
      assert s[i] == head[i];
    }
    if |head| < |s| {
      assert s[|head|] == tail[0];
    }
    SearchStops(s, p, |head|);
  }

  lemma CutOfPage<R(!new)>(order: Order<R>, rows: seq<R>, after: Option<R>, size: nat)
    requires StrictTotal(order) && Listing(order, rows) && (after.Some? ==> after.value in order.universe)
    ensures exists short, rest :: CutAfter(order, rows, after, size, short, ForwardPage(order, rows, after, size), rest)
  {
    if after.Some? {
      StartOfPage(order, rows, after.value);
    }
    var page := ForwardPage(order, rows, after, size);
    var start := if after.Some? then Search(rows, Beyond(order, after.value)) else 0;
    hide StrictTotal, Listing;
    var end := Min(start + size, |rows|);
    var short, rest := rows[..start], rows[end..];
    assert rows == short + page + rest && page + rest == rows[start..];
    assert CutAfter(order, rows, after, size, short, page, rest);
  }

  lemma PageOfCut<R(!new)>(order: Order<R>, rows: seq<R>, after: Option<R>, size: nat, short: seq<R>, page: seq<R>,
                           rest: seq<R>)
    requires CutAfter(order, rows, after, size, short, page, rest)
    ensures page == ForwardPage(order, rows, after, size)
  {
    assert rows == short + (page + rest);
    if after.Some? {
      SearchSplits(rows, Beyond(order, after.value), short, page + rest);
    }
    assert page == rows[|short|..|short| + |page|];
  }

  /** A forward page is the first size rows past the boundary, or all of them. */
  lemma PageIsCut<R(!new)>(order: Order<R>, rows: seq<R>, after: Option<R>, size: nat, page: seq<R>)
    requires StrictTotal(order) && Listing(order, rows) && (after.Some? ==> after.value in order.universe)
    ensures page == ForwardPage(order, rows, after, size) <==>
      exists short, rest :: CutAfter(order, rows, after, size, short, page, rest)
  {
    hide StrictTotal, Listing, CutAfter, ForwardPage;
    CutOfPage(order, rows, after, size);
    if short, rest :| CutAfter(order, rows, after, size, short, page, rest) {
      PageOfCut(order, rows, after, size, short, page, rest);
    }
  }

  lemma CutOfBackwardPage<R(!new)>(order: Order<R>, rows: seq<R>, before: Option<R>, size: nat)
    requires StrictTotal(order) && Listing(order, rows) && (before.Some? ==> before.value in order.universe)
    ensures exists rest, long ::
      CutBefore(order, rows, before, size, rest, BackwardPage(order, rows, before, size), long)
  {
    if before.Some? {
      EndOfPage(order, rows, before.value);
    }
    var page := BackwardPage(order, rows, before, size);
    var end := if before.Some? then Search(rows, NotBefore(order, before.value)) else |rows|;
    hide StrictTotal, Listing;
    var start := Max(0, end - size);
    var rest, long := rows[..start], rows[end..];
    assert rows == rest + page + long && rest + page == rows[..end];
    assert CutBefore(order, rows, before, size, rest, page, long);
  }

  lemma BackwardPageOfCut<R(!new)>(order: Order<R>, rows: seq<R>, before: Option<R>, size: nat, rest: seq<R>,
                                   page: seq<R>, long: seq<R>)
    requires CutBefore(order, rows, before, size, rest, page, long)
    ensures page == BackwardPage(order, rows, before, size)
  {
    if before.Some? {
      SearchSplits(rows, NotBefore(order, before.value), rest + page, long);
    }
    assert page == rows[|rest|..|rest| + |page|];
  }

  /** A backward page is the last size rows short of the boundary, or all of them. */
  lemma BackwardPageIsCut<R(!new)>(order: Order<R>, rows: seq<R>, before: Option<R>, size: nat, page: seq<R>)
    requires StrictTotal(order) && Listing(order, rows) && (before.Some? ==> before.value in order.universe)
    ensures page == BackwardPage(order, rows, before, size) <==>
      exists rest, long :: CutBefore(order, rows, before, size, rest, page, long)
  {
    hide StrictTotal, Listing, CutBefore, BackwardPage;
    CutOfBackwardPage(order, rows, before, size);
    if rest, long :| CutBefore(order, rows, before, size, rest, page, long) {
      BackwardPageOfCut(order, rows, before, size, rest, page, long);
    }
  }

  lemma ServedNext<R(!new)>(order: Order<R>, tables: seq<seq<R>>, size: nat, k: nat)
    requires k < |tables|
    ensures Served(order, tables, size, k + 1) == Served(order, tables, size, k) + PageAt(order, tables, size, k)
  {
  }

  lemma NextIncreases<R(!new)>(order: Order<R>, rows: seq<R>, before: seq<R>, size: nat)
    requires StrictTotal(order) && Listing(order, rows) && Listing(order, before)
    ensures Listing(order, before + ForwardPage(order, rows, Last(before), size))
  {
    hide StrictTotal, ForwardPage;
    LastServed(order, before);
    hide Listing;
    PageIsBeyond(order, rows, Last(before), size);
    ListingConcat(order, before, ForwardPage(order, rows, Last(before), size));
  }

  /** Whatever is inserted or deleted between pages, what a session serves is strictly increasing, so
      no row is served twice. */
  lemma {:induction false} ServedIncreases<R(!new)>(order: Order<R>, tables: seq<seq<R>>, size: nat, k: nat)
    requires StrictTotal(order) && k <= |tables| && Listings(order, tables)
    ensures Listing(order, Served(order, tables, size, k))
  {
    hide StrictTotal, ForwardPage, Last;
    if k > 0 {
      assert Listing(order, tables[k - 1]);
      hide Listing, Listings;
      ServedIncreases(order, tables, size, k - 1);
      NextIncreases(order, tables[k - 1], Served(order, tables, size, k - 1), size);
    }
  }

  lemma PageIsPart<R(!new)>(order: Order<R>, rows: seq<R>, after: Option<R>, size: nat, r: R)
    requires r in ForwardPage(order, rows, after, size)
    ensures r in rows
  {
  }

  /** Every row served was there when its page was read. */
  lemma {:induction false} ServedWasThere<R(!new)>(order: Order<R>, tables: seq<seq<R>>, size: nat, k: nat, r: R)
    returns (i: nat)
    requires k <= |tables| && r in Served(order, tables, size, k)
    ensures i < k && r in PageAt(order, tables, size, i) && r in tables[i]
  {
    ServedNext(order, tables, size, k - 1);
    hide Served, Last, ForwardPage;
    if r in PageAt(order, tables, size, k - 1) {
      i := k - 1;
      PageIsPart(order, tables[i], Last(Served(order, tables, size, i)), size, r);
    } else {
      i := ServedWasThere(order, tables, size, k - 1, r);
    }
  }

  lemma LastServed<R(!new)>(order: Order<R>, served: seq<R>)
    requires Listing(order, served)
    ensures Last(served).Some? ==> Last(served).value in order.universe
  {
    if served != [] {
      assert served[|served| - 1] in served;
    }
  }

  /** The rows served so far go at least as far as r. */
  predicate Reaches<R>(order: Order<R>, served: seq<R>, r: R) {
    served != [] && !order.less(served[|served| - 1], r)
  }

  lemma NextCovers<R(!new)>(order: Order<R>, rows: seq<R>, before: seq<R>, size: nat, r: R)
    requires StrictTotal(order) && Listing(order, rows) && Listing(order, before) && r in rows
    requires Reaches(order, before + ForwardPage(order, rows, Last(before), size), r) && !Reaches(order, before, r)
    ensures r in before + ForwardPage(order, rows, Last(before), size)
  {
    var page := ForwardPage(order, rows, Last(before), size);
    LastServed(order, before);
    assert before + [] == before;
    assert page != [] && (before + page)[|before + page| - 1] == page[|page| - 1];
    assert before != [] ==> order.less(before[|before| - 1], r);
    hide StrictTotal, Listing, ForwardPage;
    PageCovers(order, rows, Last(before), size, r);
  }

  /** Rows present in every table so far, up to the last one served, have been served. */
  lemma {:induction false} ServedCovers<R(!new)>(order: Order<R>, tables: seq<seq<R>>, size: nat, k: nat, r: R)
    requires StrictTotal(order) && k <= |tables| && Listings(order, tables)
    requires (forall i :: 0 <= i < k ==> r in tables[i]) && Reaches(order, Served(order, tables, size, k), r)
    ensures r in Served(order, tables, size, k)
  {
    hide StrictTotal, ForwardPage, Last;
    if k > 0 {
      assert Listing(order, tables[k - 1]);
      hide Listing, Listings;
      var before := Served(order, tables, size, k - 1);
      if Reaches(order, before, r) {
        ServedCovers(order, tables, size, k - 1, r);
      } else {
        ServedIncreases(order, tables, size, k - 1);
        NextCovers(order, tables[k - 1], before, size, r);
      }
    }
  }

  /** A session over a changing table. When it reads its first empty page it has served, exactly once,
      every row that was present all along. */
  lemma SessionIsComplete<R(!new)>(order: Order<R>, tables: seq<seq<R>>, size: nat, k: nat, r: R)
    requires StrictTotal(order) && k < |tables| && Listings(order, tables)
    requires size > 0 && PageAt(order, tables, size, k) == []
    requires forall i :: 0 <= i <= k ==> r in tables[i]
    ensures var served := Served(order, tables, size, k);
      exists i :: 0 <= i < |served| && served[i] == r && forall j :: 0 <= j < |served| && served[j] == r ==> j == i
  {
    var served := Served(order, tables, size, k);
    ServedIncreases(order, tables, size, k);
    LastServed(order, served);
    assert Listing(order, tables[k]);
    assert r in tables[k] && r in order.universe;
    if !Reaches(order, served, r) {
      PageCovers(order, tables[k], Last(served), size, r);
    }
    ServedCovers(order, tables, size, k, r);
    var i :| 0 <= i < |served| && served[i] == r;
    forall j | 0 <= j < |served| && served[j] == r ensures j == i {
      assert !order.less(r, r);
    }
  }

  // ---------------------------------------------------------------- backward sessions

  function Reversed<R>(s: seq<R>): (t: seq<R>)
    ensures |t| == |s| && forall i :: 0 <= i < |s| ==> t[i] == s[|s| - 1 - i]
  {
    seq(|s|, i requires 0 <= i < |s| => s[|s| - 1 - i])
  }

  function Flipped<R>(order: Order<R>): Order<R> { Order((a, b) => order.less(b, a), order.universe) }

  lemma FlippedTotal<R(!new)>(order: Order<R>, rows: seq<R>)
    requires StrictTotal(order) && Listing(order, rows)
    ensures StrictTotal(Flipped(order)) && Listing(Flipped(order), Reversed(rows))
  {
    forall r | r in Reversed(rows) ensures r in order.universe {
      var i :| 0 <= i < |rows| && Reversed(rows)[i] == r;
      assert rows[|rows| - 1 - i] in rows;
    }
  }

  lemma {:induction false} SearchStops<R(!new)>(s: seq<R>, p: R -> bool, n: nat)
    requires n <= |s| && (forall i :: 0 <= i < n ==> !p(s[i])) && (n < |s| ==> p(s[n]))
    ensures Search(s, p) == n
  {
    var m := Search(s, p);
    assert m < |s| ==> p(s[m]);
  }

  lemma {:induction false} SearchMirrors<R(!new)>(rows: seq<R>, p: R -> bool, q: R -> bool)
    requires forall r <- rows :: q(r) <==> !p(r)
    requires forall i :: Search(rows, p) <= i < |rows| ==> p(rows[i])
    ensures Search(Reversed(rows), q) == |rows| - Search(rows, p)
  {
    var n := |rows| - Search(rows, p);
    forall i | 0 <= i < n ensures !q(Reversed(rows)[i]) {
      assert rows[|rows| - 1 - i] in rows;
    }
    if n < |rows| {
      assert rows[|rows| - 1 - n] in rows;
    }
    hide Search;
    SearchStops(Reversed(rows), q, n);
  }

  lemma {:induction false} MirrorBoundary<R(!new)>(order: Order<R>, rows: seq<R>, b: R)
    requires StrictTotal(order) && Listing(order, rows) && b in order.universe
    ensures Search(Reversed(rows), Beyond(Flipped(order), b)) == |rows| - Search(rows, NotBefore(order, b))
  {
    EndOfPage(order, rows, b);
    hide StrictTotal, Listing, Search;
    SearchMirrors(rows, NotBefore(order, b), Beyond(Flipped(order), b));
  }

  lemma MirrorSlice<R(!new)>(rows: seq<R>, from: nat, to: nat)
    requires from <= to <= |rows|
    ensures Reversed(rows[from..to]) == Reversed(rows)[|rows| - to..|rows| - from]
  {
  }

  /** A backward page is the mirror image of a forward page of the reversed order, so everything about
      forward sessions holds of backward ones. */
  lemma BackwardMirrorsForward<R(!new)>(order: Order<R>, rows: seq<R>, before: Option<R>, size: nat)
    requires StrictTotal(order) && Listing(order, rows) && (before.Some? ==> before.value in order.universe)
    ensures StrictTotal(Flipped(order)) && Listing(Flipped(order), Reversed(rows))
    ensures Reversed(BackwardPage(order, rows, before, size))
      == ForwardPage(Flipped(order), Reversed(rows), before, size)
  {
    FlippedTotal(order, rows);
    var end := if before.Some? then Search(rows, NotBefore(order, before.value)) else |rows|;
    if before.Some? {
      MirrorBoundary(order, rows, before.value);
    }
    hide StrictTotal, Listing, Search;
    MirrorSlice(rows, Max(0, end - size), end);
  }

  function First<R>(s: seq<R>): Option<R> { if s == [] then None else Some(s[0]) }

  /** Everything k backward pages have served, in ascending order. */
  function ServedBackward<R(!new)>(order: Order<R>, tables: seq<seq<R>>, size: nat, k: nat): seq<R>
    requires k <= |tables|
  {
    if k == 0 then []
    else
      var before := ServedBackward(order, tables, size, k - 1);
      BackwardPage(order, tables[k - 1], First(before), size) + before
  }

  function Mirrored<R>(tables: seq<seq<R>>): (m: seq<seq<R>>)
    ensures |m| == |tables|
  {
    seq(|tables|, i requires 0 <= i < |tables| => Reversed(tables[i]))
  }

  lemma ReversedConcat<R>(a: seq<R>, b: seq<R>)
    ensures Reversed(a + b) == Reversed(b) + Reversed(a)
    ensures Reversed(Reversed(a)) == a
    ensures Last(Reversed(a)) == First(a)
  {
  }

  lemma MirroredListings<R(!new)>(order: Order<R>, tables: seq<seq<R>>)
    requires StrictTotal(order) && Listings(order, tables)
    ensures StrictTotal(Flipped(order)) && Listings(Flipped(order), Mirrored(tables))
  {
    FlippedTotal(order, []);
    forall i | 0 <= i < |tables| ensures Listing(Flipped(order), Reversed(tables[i])) {
      FlippedTotal(order, tables[i]);
    }
  }

  lemma FirstServed<R(!new)>(order: Order<R>, served: seq<R>)
    requires Listing(Flipped(order), Reversed(served))
    ensures First(served).Some? ==> First(served).value in order.universe
  {
    ReversedConcat(served, []);
    LastServed(Flipped(order), Reversed(served));
  }

  lemma MirrorStep<R(!new)>(order: Order<R>, rows: seq<R>, before: seq<R>, size: nat)
    requires StrictTotal(order) && Listing(order, rows) && Listing(Flipped(order), Reversed(before))
    ensures var page := BackwardPage(order, rows, First(before), size);
      var mirror := ForwardPage(Flipped(order), Reversed(rows), Last(Reversed(before)), size);
      mirror == Reversed(page) && Reversed(page + before) == Reversed(before) + mirror
  {
    FirstServed(order, before);
    hide StrictTotal, Listing, BackwardPage, ForwardPage;
    BackwardMirrorsForward(order, rows, First(before), size);
    ReversedConcat(BackwardPage(order, rows, First(before), size), before);
    ReversedConcat(before, []);
  }

  /** A backward session is the mirror image of a forward session of the reversed order. */
  lemma {:induction false} BackwardSessionMirrors<R(!new)>(order: Order<R>, tables: seq<seq<R>>, size: nat, k: nat)
    requires StrictTotal(order) && k <= |tables| && Listings(order, tables)
    ensures Reversed(ServedBackward(order, tables, size, k)) == Served(Flipped(order), Mirrored(tables), size, k)
  {
    if k > 0 {
      assert Listing(order, tables[k - 1]) && Mirrored(tables)[k - 1] == Reversed(tables[k - 1]);
      hide StrictTotal, Listing, Listings, BackwardPage, ForwardPage, Reversed, First, Last, Flipped, Mirrored;
      BackwardSessionMirrors(order, tables, size, k - 1);
      MirroredListings(order, tables);
      ServedIncreases(Flipped(order), Mirrored(tables), size, k - 1);
      MirrorStep(order, tables[k - 1], ServedBackward(order, tables, size, k - 1), size);
    } else {
      assert Reversed<R>([]) == [];
    }
  }

  lemma UnflippedListing<R(!new)>(order: Order<R>, t: seq<R>)
    requires Listing(Flipped(order), t)
    ensures Listing(order, Reversed(t))
  {
    var s := Reversed(t);
    forall i | 0 <= i < |s| ensures s[i] in order.universe {
      assert t[|t| - 1 - i] in t;
    }
    forall i, j | 0 <= i < j < |s| ensures order.less(s[i], s[j]) {
      assert Flipped(order).less(t[|t| - 1 - j], t[|t| - 1 - i]);
    }
  }

  lemma BackwardIncreases<R(!new)>(order: Order<R>, tables: seq<seq<R>>, size: nat, k: nat)
    requires StrictTotal(order) && k <= |tables| && Listings(order, tables)
    ensures Listing(order, ServedBackward(order, tables, size, k))
  {
    var served := ServedBackward(order, tables, size, k);
    BackwardSessionMirrors(order, tables, size, k);
    MirroredListings(order, tables);
    ReversedConcat(served, []);
    hide Served, ServedBackward, Listings, StrictTotal, Listing, Reversed, Flipped, Mirrored;
    ServedIncreases(Flipped(order), Mirrored(tables), size, k);
    UnflippedListing(order, Reversed(served));
  }

  /** So a backward session too serves an increasing list, and one that reads its first empty page has
      served every row that was present all along. */
  lemma BackwardSessionIsComplete<R(!new)>(order: Order<R>, tables: seq<seq<R>>, size: nat, k: nat, r: R)
    requires StrictTotal(order) && k < |tables| && Listings(order, tables)
    requires size > 0 && BackwardPage(order, tables[k], First(ServedBackward(order, tables, size, k)), size) == []
    requires forall i :: 0 <= i <= k ==> r in tables[i]
    ensures var served := ServedBackward(order, tables, size, k); Listing(order, served) && r in served
  {
    var served, mirror := ServedBackward(order, tables, size, k), Mirrored(tables);
    BackwardIncreases(order, tables, size, k);
    assert Listing(order, tables[k]) && mirror[k] == Reversed(tables[k]);
    forall i | 0 <= i <= k ensures r in mirror[i] {
      ReversedHolds(tables[i], r);
    }
    hide StrictTotal, Listing, Listings, Served, ServedBackward, BackwardPage, ForwardPage, First, Last, Flipped,
      Mirrored;
    BackwardSessionMirrors(order, tables, size, k);
    MirroredListings(order, tables);
    ServedIncreases(Flipped(order), mirror, size, k);
    MirrorStep(order, tables[k], served, size);
    hide Reversed;
    SessionIsComplete(Flipped(order), mirror, size, k, r);
    ReversedHolds(served, r);
  }

  lemma ReversedHolds<R>(s: seq<R>, r: R)
    ensures r in Reversed(s) <==> r in s
  {
    if r in s {
      var i :| 0 <= i < |s| && s[i] == r;
      assert Reversed(s)[|s| - 1 - i] == r;
    }
  }
}
