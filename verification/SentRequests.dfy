/**
 Sent connection requests and the replies that settle them (`save_sent_request`,
 `update_sent_request_status`, src/discovery/connection.rs).
 */
module SentRequests {
  import opened Wrappers

  datatype RequestId = RequestId(text: string)

  datatype Status = Status(text: string)

  const PENDING_STATUS := Status("pending")

  /** `details` stands for the fields that replies never touch. */
  datatype SentRequest = SentRequest(id: RequestId, target: string, status: Status, details: string)

  /** A row of the sent-request prefix in scan order; None when its value does not parse. */
  datatype Row = Row(key: RequestId, request: Option<SentRequest>)

  /** A reply; legacy clients send no request id. */
  datatype Reply = Reply(target: string, id: Option<RequestId>, status: Status)

  /** Keys are unique, and a row is stored under its own request id. */
  ghost predicate Keyed(rows: seq<Row>) {
    && (forall i, j | 0 <= i < j < |rows| :: rows[i].key != rows[j].key)
    && (forall i | 0 <= i < |rows| :: rows[i].request.Some? ==> rows[i].request.value.id == rows[i].key)
  }

  predicate IsPending(row: Row) {
    row.request.Some? && row.request.value.status == PENDING_STATUS
  }

  /** The reply settles this row if it is the first such row. */
  predicate Settles(reply: Reply, row: Row) {
    IsPending(row) &&
    match reply.id
    case Some(id) => row.request.value.id == id
    case None => row.request.value.target == reply.target
  }

  /** The position of the first row that the reply settles, or the number of rows. */
  function FirstSettled(rows: seq<Row>, reply: Reply): (n: nat)
    ensures n <= |rows|
    ensures n < |rows| ==> Settles(reply, rows[n])
    ensures forall i | 0 <= i < n :: !Settles(reply, rows[i])
  {
    if rows == [] || Settles(reply, rows[0]) then 0 else 1 + FirstSettled(rows[1..], reply)
  }

  function WithStatus(row: Row, status: Status): Row
    requires row.request.Some?
  {
    row.(request := Some(row.request.value.(status := status)))
  }

  function Update(rows: seq<Row>, reply: Reply): seq<Row> {
    var n := FirstSettled(rows, reply);
    if n < |rows| then rows[n := WithStatus(rows[n], reply.status)] else rows
  }

  function IndexOf(rows: seq<Row>, id: RequestId): (n: nat)
    ensures n <= |rows|
    ensures n < |rows| ==> rows[n].key == id
    ensures forall i | 0 <= i < n :: rows[i].key != id
  {
    if rows == [] || rows[0].key == id then 0 else 1 + IndexOf(rows[1..], id)
  }

  function Put(rows: seq<Row>, request: SentRequest, place: nat): seq<Row>
    requires place <= |rows|
  {
    var n, row := IndexOf(rows, request.id), Row(request.id, Some(request));
    if n < |rows| then rows[n := row] else rows[..place] + [row] + rows[place..]
  }

  /** A pending request that the reply names by id, or for want of one by its target. */
  ghost predicate NamedBy(reply: Reply, row: Row) {
    && row.request.Some? && row.request.value.status == Status("pending")
    && (if reply.id.Some? then Some(row.request.value.id) == reply.id else row.request.value.target == reply.target)
  }

  /** The first row that the reply names gets the reply's status and keeps everything else; all other rows stay. */
  lemma UpdateMeans(rows: seq<Row>, reply: Reply, n: nat)
    requires n < |rows| && NamedBy(reply, rows[n]) && forall i | 0 <= i < n :: !NamedBy(reply, rows[i])
    ensures var q := rows[n].request.value;
            Update(rows, reply) ==
              rows[n := Row(rows[n].key, Some(SentRequest(q.id, q.target, reply.status, q.details)))]
  {
    assert forall i | 0 <= i <= n :: NamedBy(reply, rows[i]) <==> Settles(reply, rows[i]);
    assert FirstSettled(rows, reply) == n;
  }

  /** A reply that names no pending row changes nothing. */
  lemma UpdateWithoutMatch(rows: seq<Row>, reply: Reply)
    requires forall i | 0 <= i < |rows| :: !NamedBy(reply, rows[i])
    ensures Update(rows, reply) == rows && FirstSettled(rows, reply) == |rows|
  {
    assert forall i | 0 <= i < |rows| :: !Settles(reply, rows[i]);
  }

  /** A save overwrites the row of that id. */
  lemma PutOverwrites(rows: seq<Row>, request: SentRequest, place: nat, n: nat)
    requires place <= |rows| && n < |rows| && rows[n].key == request.id
    requires forall i | 0 <= i < n :: rows[i].key != request.id
    ensures Put(rows, request, place) == rows[n := Row(request.id, Some(request))]
  {
    assert IndexOf(rows, request.id) == n;
  }

  /** Without one it adds the row; the others keep their order. */
  lemma PutAdds(rows: seq<Row>, request: SentRequest, place: nat)
    requires place <= |rows| && forall i | 0 <= i < |rows| :: rows[i].key != request.id
    ensures Put(rows, request, place) == rows[..place] + [Row(request.id, Some(request))] + rows[place..]
  {
    assert IndexOf(rows, request.id) == |rows|;
  }

  /** Saving keeps every row under its own, unique request id. */
  lemma PutKeepsKeyed(rows: seq<Row>, request: SentRequest, place: nat)
    requires Keyed(rows) && place <= |rows|
    ensures Keyed(Put(rows, request, place))
  {
    var rows' := Put(rows, request, place);
    if IndexOf(rows, request.id) == |rows| {
      assert forall i | 0 <= i < place :: rows'[i] == rows[i];
      assert forall i | place < i < |rows'| :: rows'[i] == rows[i - 1];
      assert rows'[place].key == request.id;
    }
  }

  /** The rows of the sent-request prefix, updated in place. */
  class SentStore {
    var rows: seq<Row>

    /** A put: overwrites the row of that id, or adds one at its `place` in scan order. */
    method SaveSentRequest(request: SentRequest, place: nat)
      requires place <= |rows|
      modifies this
      ensures rows == Put(old(rows), request, place)
    {
      var row := Row(request.id, Some(request));
      for i := 0 to |rows|
        invariant rows == old(rows)
        invariant forall j | 0 <= j < i :: rows[j].key != request.id
      {
        if rows[i].key == request.id {
          rows := rows[i := row];
          return;
        }
      }
      rows := rows[..place] + [row] + rows[place..];
    }

    /** Changes the status of the first pending row that the reply names, and nothing else. */
    method UpdateSentRequestStatus(reply: Reply) returns (updated: Option<SentRequest>)
      modifies this
      ensures rows == Update(old(rows), reply)
      ensures updated.Some? <==> FirstSettled(old(rows), reply) < |old(rows)|
      ensures updated.Some? ==> rows[FirstSettled(old(rows), reply)].request == updated
    {
      for i := 0 to |rows|
        invariant rows == old(rows)
        invariant forall j | 0 <= j < i :: !Settles(reply, rows[j])
      {
        if rows[i].request.Some? {
          var req := rows[i].request.value;
          if req.status != PENDING_STATUS { continue; }
          var matches := match reply.id case Some(id) => req.id == id case None => req.target == reply.target;
          if matches {
            rows := rows[i := Row(rows[i].key, Some(req.(status := reply.status)))];
            return Some(req.(status := reply.status));
          }
        }
      }
      return None;
    }
  }

  // ---- What a sequence of replies does ----

  function UpdateAll(rows: seq<Row>, replies: seq<Reply>): seq<Row> {
    if replies == [] then rows else Update(UpdateAll(rows, replies[..|replies| - 1]), replies[|replies| - 1])
  }

  /** Each call changes at most one row, and there only the status. */
  lemma UpdateChangesAtMostOneRow(rows: seq<Row>, reply: Reply, i: nat, j: nat)
    requires i < |rows| && j < |rows|
    ensures |Update(rows, reply)| == |rows|
    ensures Update(rows, reply)[i] != rows[i] && Update(rows, reply)[j] != rows[j] ==> i == j
    ensures Update(rows, reply)[i] != rows[i] ==>
              Settles(reply, rows[i]) && Update(rows, reply)[i] == WithStatus(rows[i], reply.status)
  {
    assert FirstSettled(rows, reply) <= |rows|;
  }

  /** A reply without an id settles exactly the first pending row for its target. */
  lemma LegacyReplySettlesFirstPending(rows: seq<Row>, reply: Reply, n: nat)
    requires reply.id.None? && n < |rows| && IsPending(rows[n]) && rows[n].request.value.target == reply.target
    requires forall i | 0 <= i < n :: !(IsPending(rows[i]) && rows[i].request.value.target == reply.target)
    ensures Update(rows, reply) == rows[n := WithStatus(rows[n], reply.status)]
  {
    assert Settles(reply, rows[n]);
    assert forall i | 0 <= i < n :: !Settles(reply, rows[i]);
    assert FirstSettled(rows, reply) == n;
  }

  /** The status of the first reply that names `id`. */
  function FirstStatus(replies: seq<Reply>, id: RequestId): Option<Status> {
    if replies == [] then None
    else
      var earlier, last := FirstStatus(replies[..|replies| - 1], id), replies[|replies| - 1];
      if earlier.Some? then earlier else if last.id == Some(id) then Some(last.status) else None
  }

  /** What a row becomes: a pending row takes the first status it was given, every other row stays. */
  function Settled(row: Row, replies: seq<Reply>): Row {
    if IsPending(row) && FirstStatus(replies, row.request.value.id).Some?
    then WithStatus(row, FirstStatus(replies, row.request.value.id).value)
    else row
  }

  /** Every reply names a request and is an accept or a decline. */
  ghost predicate Final(replies: seq<Reply>) {
    forall r | r in replies :: r.id.Some? && r.status != PENDING_STATUS
  }

  /** On keyed rows a reply with an id reaches exactly the pending row of that id. */
  lemma UpdateById(rows: seq<Row>, reply: Reply, i: nat)
    requires Keyed(rows) && reply.id.Some? && i < |rows|
    ensures Update(rows, reply)[i] == if Settles(reply, rows[i]) then WithStatus(rows[i], reply.status) else rows[i]
  {
    var n := FirstSettled(rows, reply);
    if n < |rows| && Settles(reply, rows[i]) {
      OnlyOneSettled(rows, reply, n, i);
    }
  }

  lemma OnlyOneSettled(rows: seq<Row>, reply: Reply, i: nat, j: nat)
    requires Keyed(rows) && reply.id.Some? && i < |rows| && j < |rows|
    requires Settles(reply, rows[i]) && Settles(reply, rows[j])
    ensures i == j
  {
    assert rows[i].key == rows[j].key;
  }

  lemma {:induction false} FirstStatusIsFinal(replies: seq<Reply>, id: RequestId)
    requires Final(replies)
    ensures FirstStatus(replies, id).Some? ==> FirstStatus(replies, id).value != PENDING_STATUS
  {
    if replies != [] {
      assert replies[|replies| - 1] in replies;
      FirstStatusIsFinal(replies[..|replies| - 1], id);
    }
  }

  lemma UpdateKeepsKeyed(rows: seq<Row>, reply: Reply)
    requires Keyed(rows)
    ensures Keyed(Update(rows, reply)) && |Update(rows, reply)| == |rows|
  {
  }

  /**
   For any sequence of accepts and declines carrying request ids, duplicates included and in any order, each
   pending row ends with the status of the first reply naming it, and every other row is untouched.
   */
  lemma {:induction false} FirstReplyWins(rows: seq<Row>, replies: seq<Reply>, i: nat)
    requires Keyed(rows) && Final(replies) && i < |rows|
    ensures Keyed(UpdateAll(rows, replies)) && |UpdateAll(rows, replies)| == |rows|
    ensures UpdateAll(rows, replies)[i] == Settled(rows[i], replies)
  {
    if replies != [] {
      var before, last := replies[..|replies| - 1], replies[|replies| - 1];
      assert last in replies && Final(before);
      FirstReplyWins(rows, before, i);
      if rows[i].request.Some? {
        FirstStatusIsFinal(before, rows[i].request.value.id);
      }
      UpdateById(UpdateAll(rows, before), last, i);
      UpdateKeepsKeyed(UpdateAll(rows, before), last);
    }
  }

  ghost predicate DistinctIds(replies: seq<Reply>) {
    forall i, j | 0 <= i < j < |replies| :: replies[i].id != replies[j].id
  }

  lemma {:induction false} FirstStatusIsOnly(replies: seq<Reply>, r: Reply)
    requires DistinctIds(replies) && r in replies && r.id.Some?
    ensures FirstStatus(replies, r.id.value) == Some(r.status)
  {
    var n := |replies| - 1;
    var before := replies[..n];
    assert replies == before + [replies[n]];
    if r in before {
      FirstStatusIsOnly(before, r);
    } else {
      NoFirstStatus(before, r.id.value);
    }
  }

  lemma {:induction false} NoFirstStatus(replies: seq<Reply>, id: RequestId)
    requires forall r | r in replies :: r.id != Some(id)
    ensures FirstStatus(replies, id).None?
  {
    if replies != [] {
      NoFirstStatus(replies[..|replies| - 1], id);
    }
  }

  lemma FirstStatusIsOrderFree(replies: seq<Reply>, other: seq<Reply>, id: RequestId)
    requires DistinctIds(replies) && DistinctIds(other) && multiset(replies) == multiset(other)
    ensures FirstStatus(replies, id) == FirstStatus(other, id)
  {
    assert forall r :: r in replies <==> r in multiset(replies);
    assert forall r :: r in other <==> r in multiset(other);
    if r :| r in replies && r.id == Some(id) {
      FirstStatusIsOnly(replies, r);
      FirstStatusIsOnly(other, r);
    } else {
      NoFirstStatus(replies, id);
      NoFirstStatus(other, id);
    }
  }

  /** Replies with distinct ids may arrive in any order. */
  lemma ReplyOrderDoesNotMatter(rows: seq<Row>, replies: seq<Reply>, other: seq<Reply>)
    requires Keyed(rows) && Final(replies) && Final(other)
    requires DistinctIds(replies) && DistinctIds(other) && multiset(replies) == multiset(other)
    ensures UpdateAll(rows, replies) == UpdateAll(rows, other)
  {
    SameLength(rows, replies);
    SameLength(rows, other);
    forall i | 0 <= i < |rows| ensures UpdateAll(rows, replies)[i] == UpdateAll(rows, other)[i] {
      FirstReplyWins(rows, replies, i);
      FirstReplyWins(rows, other, i);
      if rows[i].request.Some? {
        FirstStatusIsOrderFree(replies, other, rows[i].request.value.id);
      }
    }
  }

  lemma {:induction false} SameLength(rows: seq<Row>, replies: seq<Reply>)
    ensures |UpdateAll(rows, replies)| == |rows|
  {
    if replies != [] {
      SameLength(rows, replies[..|replies| - 1]);
    }
  }
}
