/** What a listing shows, said of the table and the request alone. */
module ListingTheorems {
  import opened Ints
  import opened Outcome
  import opened Users
  import opened Database
  import P = Paging

  /** A listing request. */
  datatype Request = Request(mobile: Option<string>, disabled: Option<bool>, page: int, pageSize: int)

  /** The row passes the filters that were given; an empty mobile is no filter. */
  predicate Wanted(like: P.Like, req: Request, u: UserEntity) {
    && (req.mobile.Some? && req.mobile.value != "" ==> like(u.mobile, "%" + req.mobile.value + "%"))
    && (req.disabled.Some? ==> u.disabled == req.disabled.value)
  }

  function WantedRows(like: P.Like, db: Db, req: Request): set<UserEntity> {
    set u | u in db.users && Wanted(like, req, u)
  }

  /** The wanted rows that are listed before row u: created later, or then with a higher id. */
  function Newer(like: P.Like, db: Db, req: Request, u: UserEntity): set<UserEntity> {
    set v | v in WantedRows(like, db, req)
            && (v.createdAt > u.createdAt || (v.createdAt == u.createdAt && v.id > u.id))
  }

  /** The page asked for, counted from 1, and its size: 20 unless one to 100 is given. */
  function PageOf(req: Request): int {
    if req.page < 1 then 1 else req.page
  }

  function SizeOf(req: Request): int {
    if req.pageSize < 1 then 20 else if 100 < req.pageSize then 100 else req.pageSize
  }

  function Listed(like: P.Like, db: Db, req: Request): Result<P.Listing> {
    P.ListUsers(like, db, req.mobile, req.disabled, req.page, req.pageSize).1
  }

  function Elements(rows: seq<UserEntity>): set<UserEntity> {
    set u | u in rows
  }

  lemma {:induction false} DescendingIsDistinct(rows: seq<UserEntity>)
    requires P.Descending(rows)
    ensures |Elements(rows)| == |rows|
  {
    if rows != [] {
      var init, last := rows[..|rows| - 1], rows[|rows| - 1];
      DescendingIsDistinct(init);
      assert rows == init + [last];
      assert last !in init;
      assert Elements(rows) == Elements(init) + {last};
    }
  }

  /** In a descending list the rows before the i-th are the i that come first. */
  lemma RankIsPlace(rows: seq<UserEntity>, i: nat)
    requires P.Descending(rows) && i < |rows|
    ensures |set v | v in rows && P.Before(v, rows[i])| == i
  {
    DescendingIsDistinct(rows[..i]);
    assert (set v | v in rows && P.Before(v, rows[i])) == Elements(rows[..i]) by {
      forall v | v in rows && P.Before(v, rows[i]) ensures v in rows[..i] {
        var k :| 0 <= k < |rows| && rows[k] == v;
        assert k >= i ==> k == i || P.Before(rows[i], rows[k]);
      }
      forall v | v in rows[..i] ensures v in rows && P.Before(v, rows[i]) {
        var k :| 0 <= k < i && rows[k] == v;
      }
    }
  }

  function QueryFor(req: Request): P.Query {
    P.QueryOf(req.mobile, req.disabled, req.page, req.pageSize)
  }

  /** All wanted rows in their order. */
  function Ordered(like: P.Like, db: Db, req: Request): seq<UserEntity> {
    P.Sort(P.Matching(like, db.users, QueryFor(req)))
  }

  lemma OrderedHoldsWanted(like: P.Like, db: Db, req: Request)
    requires P.DistinctIds(db.users)
    ensures var rows := Ordered(like, db, req);
            && P.Descending(rows) && |WantedRows(like, db, req)| == |rows|
            && forall u :: u in rows <==> u in WantedRows(like, db, req)
  {
    hide P.Sort, P.Matching, P.Descending, P.DistinctIds;
    var found, rows := P.Matching(like, db.users, QueryFor(req)), Ordered(like, db, req);
    P.MatchingIsExact(like, db.users, QueryFor(req));
    P.SortKeepsRows(found);
    P.SortDescends(found);
    forall u ensures u in rows <==> u in WantedRows(like, db, req) {
      assert u in rows <==> u in multiset(rows);
      assert u in found <==> u in multiset(found);
      AcceptsWanted(like, req, u);
    }
    DescendingIsDistinct(rows);
    assert Elements(rows) == WantedRows(like, db, req);
  }

  lemma AcceptsWanted(like: P.Like, req: Request, u: UserEntity)
    ensures P.Accepts(like, QueryFor(req), u) <==> Wanted(like, req, u)
  {
  }

  lemma NewerIsRank(like: P.Like, db: Db, req: Request, i: nat)
    requires P.DistinctIds(db.users) && i < |Ordered(like, db, req)|
    ensures |Newer(like, db, req, Ordered(like, db, req)[i])| == i
  {
    hide Ordered, Wanted, P.Descending, P.DistinctIds;
    var rows := Ordered(like, db, req);
    OrderedHoldsWanted(like, db, req);
    RankIsPlace(rows, i);
    assert Newer(like, db, req, rows[i]) == set v | v in rows && P.Before(v, rows[i]);
  }

  lemma ListedIsSlice(like: P.Like, db: Db, req: Request)
    requires db.faults == [] && (PageOf(req) - 1) * SizeOf(req) <= MAX32 && |Ordered(like, db, req)| <= MAX32
    ensures var rows, offset, r := Ordered(like, db, req), (PageOf(req) - 1) * SizeOf(req), Listed(like, db, req);
            && r.Ok? && 0 <= offset && r.value.page == PageOf(req) && r.value.pageSize == SizeOf(req)
            && r.value.users == P.AllHidden(P.Limit(rows, offset, SizeOf(req)))
            && r.value.totalRecords == |rows|
            && (r.value.totalPages - 1) * SizeOf(req) < |rows| <= r.value.totalPages * SizeOf(req)
  {
    hide P.Sort, P.Matching, P.Limit, P.PageRows, P.PageCount, Wrap32;
    var q, found := QueryFor(req), P.Matching(like, db.users, QueryFor(req));
    assert Issue(db) == db && q.(page := q.page) == q;
    P.SameLength(found);
    P.OffsetFits(q, q.page);
    P.PageIsSlice(like, db.users, q, q.page);
    P.TotalsFit(|found|, q.pageSize);
    var n := P.TotalPages(|found|, q.pageSize);
    assert n == P.PageCount(|found|, q.pageSize);
  }

  /** On a working database, for every request whose offset fits an int: the answer counts exactly
      the rows the filters want and the pages they fill; the page's k-th user is, but for its
      password hash, the wanted row that has exactly offset + k wanted rows before it; and the
      page is as long as its size and the rows left allow. */
  lemma ListingShowsExactly(like: P.Like, db: Db, req: Request) returns (shown: seq<UserEntity>)
    requires db.faults == [] && P.DistinctIds(db.users)
    requires (PageOf(req) - 1) * SizeOf(req) <= MAX32 && |WantedRows(like, db, req)| <= MAX32
    ensures Listed(like, db, req).Ok?
    ensures var total, offset := |WantedRows(like, db, req)|, (PageOf(req) - 1) * SizeOf(req);
            var listing := Listed(like, db, req).value;
            && listing.page == PageOf(req) && listing.pageSize == SizeOf(req) && listing.totalRecords == total
            && (listing.totalPages - 1) * SizeOf(req) < total <= listing.totalPages * SizeOf(req)
            && |shown| == |listing.users|
            && |shown| == (if total <= offset then 0 else if total - offset < SizeOf(req) then total - offset
                           else SizeOf(req))
            && forall k :: 0 <= k < |shown| ==>
                 && shown[k] in WantedRows(like, db, req) && |Newer(like, db, req, shown[k])| == offset + k
                 && listing.users[k] == shown[k].(passwordHash := "")
  {
    hide Ordered, Newer, WantedRows, P.ListUsers, P.Descending, P.DistinctIds;
    var rows, offset := Ordered(like, db, req), (PageOf(req) - 1) * SizeOf(req);
    OrderedHoldsWanted(like, db, req);
    ListedIsSlice(like, db, req);
    shown := P.Limit(rows, offset, SizeOf(req));
    P.LimitLength(rows, offset, SizeOf(req));
    forall k | 0 <= k < |shown|
      ensures shown[k] in WantedRows(like, db, req) && |Newer(like, db, req, shown[k])| == offset + k
    {
      assert shown[k] == rows[offset + k];
      NewerIsRank(like, db, req, offset + k);
    }
  }
}
