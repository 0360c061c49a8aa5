/** The `/rank` endpoint: the request shape and its validation (a non-empty candidate
    list, a known user, only known items), the arguments handed to the ranker, and
    the response. The user and item catalogues are given as lists of records rather
    than read from CSV files; the ranker's saved schema and scorer are given too. */
module Api {
  import opened Wrappers
  import opened Errors
  import opened Seqs
  import opened Sets
  import opened Sorting
  import opened Frames
  import opened Records
  import Rank

  /** The request context, with the defaults the request model declares. */
  datatype Context = Context(device: string, hour: int, dayOfWeek: int, sessionId: string)

  const DefaultContext := Context("tv", 20, 2, "s_online")

  datatype RankRequest = RankRequest(userId: string, candidates: seq<string>, context: Context)

  datatype Response = Response(userId: string, ranked: seq<Rank.Ranked>, context: Context)

  /** What the handler passes to `rank_candidates`. */
  datatype RankCall = RankCall(userRow: Dict, itemRows: seq<Dict>, context: Dict)

  /** The HTTP status a failure is answered with. */
  function Status(e: Error): int
  {
    match e
    case InvalidRequest => 422
    case UnknownUser(_) => 404
    case UnknownItems(_) => 404
    case _ => 500
  }

  /** `req.context.model_dump()`: the four fields, in declaration order. */
  function ContextDict(c: Context): (d: Dict)
    ensures Valid(d)
    ensures d.cells == map[Plain("device") := Text(c.device), Plain("hour") := Int(c.hour),
                           Plain("day_of_week") := Int(c.dayOfWeek), Plain("session_id") := Text(c.sessionId)]
  {
    var order := [Plain("device"), Plain("hour"), Plain("day_of_week"), Plain("session_id")];
    assert |"device"| == 6 && |"hour"| == 4 && |"day_of_week"| == 11 && |"session_id"| == 10;
    assert ColumnSet(order) == {order[0], order[1], order[2], order[3]};
    Dict(order, map[order[0] := Text(c.device), order[1] := Int(c.hour),
                    order[2] := Int(c.dayOfWeek), order[3] := Text(c.sessionId)])
  }

  /** The ranker reads back exactly the request's context; the request has no year, so
      the ranker always uses its default year 2026. */
  lemma ContextReadsBack(c: Context)
    ensures Rank.ContextInt(ContextDict(c), "hour", 20) == Success(c.hour)
    ensures Rank.ContextInt(ContextDict(c), "day_of_week", 2) == Success(c.dayOfWeek)
    ensures Rank.ContextInt(ContextDict(c), "current_year", 2026) == Success(2026)
    ensures Get(ContextDict(c), "device", Text("tv")) == Text(c.device)
    ensures Get(ContextDict(c), "session_id", Text("s_online")) == Text(c.sessionId)
  {
    assert |"device"| == 6 && |"hour"| == 4 && |"day_of_week"| == 11 && |"session_id"| == 10;
    assert |"current_year"| == 12;
  }

  /** `users["user_id"] == user_id` on one row. */
  predicate UserIs(u: Dict, id: string)
  {
    Get(u, "user_id", Null) == Text(id)
  }

  /** `users[users["user_id"] == id].iloc[0]`, or nothing when no row matches. */
  function FirstUser(users: seq<Dict>, id: string): (r: Option<Dict>)
    ensures r.None? <==> forall k :: 0 <= k < |users| ==> !UserIs(users[k], id)
    ensures r.Some? ==>
      exists k :: 0 <= k < |users| && r.value == users[k] && UserIs(users[k], id)
        && forall j :: 0 <= j < k ==> !UserIs(users[j], id)
  {
    if |users| == 0 then None
    else if UserIs(users[0], id) then Some(users[0])
    else
      var r := FirstUser(users[1..], id);
      assert forall k :: 1 <= k < |users| ==> users[k] == users[1..][k - 1];
      if r.Some? then
        var k :| 0 <= k < |users[1..]| && r.value == users[1..][k] && UserIs(users[1..][k], id)
          && forall j :: 0 <= j < k ==> !UserIs(users[1..][j], id);
        assert forall j :: 0 <= j < k + 1 ==> !UserIs(users[j], id);
        r
      else r
  }

  /** `items["item_id"].isin(candidates)` on one row. */
  predicate IsCandidate(item: Dict, candidates: seq<string>)
  {
    var v := Get(item, "item_id", Null);
    v.Text? && v.s in candidates
  }

  /** Some catalogue row carries this item id. */
  predicate HasItem(items: seq<Dict>, id: string)
  {
    exists k :: 0 <= k < |items| && Get(items[k], "item_id", Null) == Text(id)
  }

  /** The catalogue rows of the candidates, in catalogue order. */
  function CandidateItems(items: seq<Dict>, candidates: seq<string>): (r: seq<Dict>)
    ensures forall x :: x in r <==> x in items && IsCandidate(x, candidates)
  {
    Filter(items, (x: Dict) => IsCandidate(x, candidates))
  }

  /** `sorted(set(candidates) - set(known ids))`: each unknown candidate once, ascending. */
  function MissingIds(candidates: seq<string>, items: seq<Dict>): (m: seq<string>)
    ensures forall c :: c in m <==> c in candidates && !HasItem(items, c)
    ensures NoDups(m)
    ensures forall i, j :: 0 <= i < j < |m| ==> StrLe(m[i], m[j])
  {
    var unknown := Distinct(Filter(candidates, (c: string) => !HasItem(items, c)));
    var m := SortStrings(unknown);
    NoDupsPermutation(unknown, m);
    assert forall c :: c in m <==> c in unknown by {
      forall c ensures c in m <==> c in unknown {
        assert c in m <==> c in multiset(m);
        assert c in unknown <==> c in multiset(unknown);
      }
    }
    m
  }

  /** The request validation of the handler, up to the ranking call: an empty candidate
      list is refused (422), then an unknown user (404), then any unknown candidate
      (404, listing them); otherwise the first row of the user, every catalogue row of
      a candidate, and the dumped context. */
  function Validate(req: RankRequest, users: seq<Dict>, items: seq<Dict>): (r: Result<RankCall, Error>)
    ensures |req.candidates| == 0 ==> r == Failure(InvalidRequest)
    ensures r == Failure(UnknownUser(req.userId)) <==>
      |req.candidates| > 0 && forall k :: 0 <= k < |users| ==> !UserIs(users[k], req.userId)
    ensures r.Failure? && r.error.UnknownItems? <==>
      && |req.candidates| > 0
      && (exists k :: 0 <= k < |users| && UserIs(users[k], req.userId))
      && (exists c :: c in req.candidates && !HasItem(items, c))
    ensures r.Failure? && r.error.UnknownItems? ==>
      && (forall c :: c in r.error.ids <==> c in req.candidates && !HasItem(items, c))
      && NoDups(r.error.ids)
      && forall i, j :: 0 <= i < j < |r.error.ids| ==> StrLe(r.error.ids[i], r.error.ids[j])
    ensures r.Failure? ==> r.error.InvalidRequest? || r.error.UnknownUser? || r.error.UnknownItems?
    ensures r.Success? ==>
      && (exists k :: 0 <= k < |users| && r.value.userRow == users[k] && UserIs(users[k], req.userId)
            && forall j :: 0 <= j < k ==> !UserIs(users[j], req.userId))
      && (forall c :: c in req.candidates ==> HasItem(items, c))
      && (forall x :: x in r.value.itemRows <==> x in items && IsCandidate(x, req.candidates))
      && r.value.context == ContextDict(req.context)
  {
    if |req.candidates| == 0 then Failure(InvalidRequest)
    else
      var user := FirstUser(users, req.userId);
      if user.None? then Failure(UnknownUser(req.userId))
      else
        var missing := MissingIds(req.candidates, items);
        if |missing| > 0 then
          assert missing[0] in missing;
          Failure(UnknownItems(missing))
        else
          assert forall c :: c in req.candidates ==> HasItem(items, c) by {
            forall c | c in req.candidates ensures HasItem(items, c) {
              assert c !in missing;
            }
          }
          Success(RankCall(user.value, CandidateItems(items, req.candidates), ContextDict(req.context)))
  }

  function ItemId(x: Dict): Value
  {
    Get(x, "item_id", Null)
  }

  /** The item ids of catalogue rows. */
  function ItemIds(rows: seq<Dict>): (ids: seq<Value>)
    ensures |ids| == |rows|
    ensures forall k :: 0 <= k < |rows| ==> ids[k] == Get(rows[k], "item_id", Null)
  {
    MapSeq(rows, ItemId)
  }

  /** `IdText` of a candidate's id: the candidate name it matched. */
  function IdText(v: Value): string
  {
    if v.Text? then v.s else ""
  }

  /** The candidate name a catalogue row matched. */
  function ItemName(x: Dict): string
  {
    IdText(ItemId(x))
  }

  /** Rows with distinct text ids have distinct names. */
  lemma TextIdsDistinct(rows: seq<Dict>)
    requires NoDups(ItemIds(rows))
    requires forall x :: x in rows ==> ItemId(x).Text?
    ensures NoDups(MapSeq(rows, ItemName))
  {
    var names := MapSeq(rows, ItemName);
    forall i, j | 0 <= i < j < |names| ensures names[i] != names[j] {
      assert rows[i] in rows && rows[j] in rows;
      assert ItemIds(rows)[i] != ItemIds(rows)[j];
    }
  }

  /** When every candidate is known, the candidate rows name exactly the candidates. */
  lemma CandidateNames(items: seq<Dict>, candidates: seq<string>)
    requires forall c :: c in candidates ==> HasItem(items, c)
    ensures forall c :: c in MapSeq(CandidateItems(items, candidates), ItemName) <==> c in candidates
  {
    var rows := CandidateItems(items, candidates);
    var names := MapSeq(rows, ItemName);
    forall c ensures c in names <==> c in candidates {
      if c in names {
        var i :| 0 <= i < |names| && names[i] == c;
        assert rows[i] in rows;
      }
      if c in candidates {
        var k :| 0 <= k < |items| && Get(items[k], "item_id", Null) == Text(c);
        assert items[k] in rows;
        var i :| 0 <= i < |rows| && rows[i] == items[k];
        assert names[i] == c;
      }
    }
  }

  /** When every candidate is known and catalogue ids are distinct, the ranker gets one
      row per distinct candidate, carrying that candidate's id. */
  lemma OneRowPerCandidate(items: seq<Dict>, candidates: seq<string>)
    requires NoDups(ItemIds(items))
    requires forall c :: c in candidates ==> HasItem(items, c)
    ensures |CandidateItems(items, candidates)| == |Elements(candidates)|
    ensures forall c :: c in candidates ==>
      exists x :: x in CandidateItems(items, candidates) && Get(x, "item_id", Null) == Text(c)
  {
    var rows := CandidateItems(items, candidates);
    FilterKeysNoDups(items, (x: Dict) => IsCandidate(x, candidates), ItemId);
    TextIdsDistinct(rows);
    var names := MapSeq(rows, ItemName);
    forall c | c in candidates
      ensures exists x :: x in rows && Get(x, "item_id", Null) == Text(c)
    {
      var k :| 0 <= k < |items| && Get(items[k], "item_id", Null) == Text(c);
      assert items[k] in rows;
    }
    CandidateNames(items, candidates);
    assert Elements(names) == Elements(candidates);
    ElementsCard(names);
  }

  /** `rank(req)`: the validation, then the ranking of the candidate rows for the user's
      first row under the request context, answered with the request's user id and
      context echoed unchanged. */
  function HandleRank(req: RankRequest, users: seq<Dict>, items: seq<Dict>, schema: seq<Column>,
                      scorer: Row -> real): (r: Result<Response, Error>)
    ensures Validate(req, users, items).Failure? ==> r == Failure(Validate(req, users, items).error)
    ensures r.Success? <==>
      && Validate(req, users, items).Success?
      && Rank.RankCandidates(Validate(req, users, items).value.userRow, Validate(req, users, items).value.itemRows,
           ContextDict(req.context), schema, scorer).Success?
    ensures r.Success? ==> r.value.userId == req.userId && r.value.context == req.context
    ensures r.Success? ==> SortedBy(r.value.ranked, Rank.HigherFirst)
    ensures r.Success? ==> |r.value.ranked| == |Validate(req, users, items).value.itemRows|
    ensures r.Success? ==>
      r.value.ranked == Rank.RankCandidates(Validate(req, users, items).value.userRow,
        Validate(req, users, items).value.itemRows, ContextDict(req.context), schema, scorer).value
  {
    var call :- Validate(req, users, items);
    var ranked :- Rank.RankCandidates(call.userRow, call.itemRows, call.context, schema, scorer);
    Success(Response(req.userId, ranked, req.context))
  }

  /** A successful answer ranks exactly the requested candidates: every record names a
      requested candidate, and every requested candidate has a record. */
  lemma RankedAreTheCandidates(req: RankRequest, users: seq<Dict>, items: seq<Dict>, schema: seq<Column>,
                               scorer: Row -> real)
    requires HandleRank(req, users, items, schema, scorer).Success?
    requires forall j :: 0 <= j < |users| ==> Valid(users[j])
    requires forall j :: 0 <= j < |items| ==> Valid(items[j])
    ensures var ranked := HandleRank(req, users, items, schema, scorer).value.ranked;
      && (forall rec :: rec in ranked ==> rec.itemId.Text? && rec.itemId.s in req.candidates)
      && (forall c :: c in req.candidates ==> exists rec :: rec in ranked && rec.itemId == Text(c))
  {
    var call := Validate(req, users, items).value;
    var ranked := Rank.RankCandidates(call.userRow, call.itemRows, ContextDict(req.context), schema, scorer).value;
    assert HandleRank(req, users, items, schema, scorer).value.ranked == ranked;
    ValidatedRows(req, users, items);
    Rank.RankedIds(call.userRow, call.itemRows, ContextDict(req.context), schema, scorer);
    NamedCandidates(req.candidates, items, call.itemRows, ranked);
  }

  /** The rows validation hands to the ranker are valid, the user row has a `user_id`
      and every item row is a candidate. */
  lemma ValidatedRows(req: RankRequest, users: seq<Dict>, items: seq<Dict>)
    requires Validate(req, users, items).Success?
    requires forall j :: 0 <= j < |users| ==> Valid(users[j])
    requires forall j :: 0 <= j < |items| ==> Valid(items[j])
    ensures var call := Validate(req, users, items).value;
      && Valid(call.userRow) && Plain("user_id") in call.userRow.cells
      && (forall c :: c in req.candidates ==> HasItem(items, c))
      && (forall x :: x in call.itemRows <==> x in items && IsCandidate(x, req.candidates))
      && forall j :: 0 <= j < |call.itemRows| ==>
           Valid(call.itemRows[j]) && Plain("item_id") in call.itemRows[j].cells
  {
    var call := Validate(req, users, items).value;
    forall j | 0 <= j < |call.itemRows|
      ensures Valid(call.itemRows[j]) && Plain("item_id") in call.itemRows[j].cells
    {
      assert call.itemRows[j] in call.itemRows;
    }
  }

  /** Records naming the ids of exactly the candidate rows name exactly the candidates,
      when every candidate has a catalogue row. */
  lemma NamedCandidates(candidates: seq<string>, items: seq<Dict>, rows: seq<Dict>, ranked: seq<Rank.Ranked>)
    requires forall c :: c in candidates ==> HasItem(items, c)
    requires forall x :: x in rows <==> x in items && IsCandidate(x, candidates)
    requires forall rec :: rec in ranked ==> exists i :: 0 <= i < |rows| && rec.itemId == Get(rows[i], "item_id", Null)
    requires forall i :: 0 <= i < |rows| ==> exists rec :: rec in ranked && rec.itemId == Get(rows[i], "item_id", Null)
    ensures forall rec :: rec in ranked ==> rec.itemId.Text? && rec.itemId.s in candidates
    ensures forall c :: c in candidates ==> exists rec :: rec in ranked && rec.itemId == Text(c)
  {
    forall rec | rec in ranked ensures rec.itemId.Text? && rec.itemId.s in candidates {
      var i :| 0 <= i < |rows| && rec.itemId == Get(rows[i], "item_id", Null);
      assert rows[i] in rows;
    }
    forall c | c in candidates ensures exists rec :: rec in ranked && rec.itemId == Text(c) {
      var k :| 0 <= k < |items| && Get(items[k], "item_id", Null) == Text(c);
      assert items[k] in rows;
      var i :| 0 <= i < |rows| && rows[i] == items[k];
    }
  }
}
