/** The supervisor's request table. */
module V3Requests {
  import opened Basics
  import opened Text

  type RequestId = string

  datatype Lifecycle = Pending | Completed

  datatype Row = Row(kind: string, fingerprint: string, lifecycle: Lifecycle, response: Option<string>)

  type Table = map<RequestId, Row>

  datatype Error = InvalidRecord | Conflict | CorruptState

  datatype Reservation = New | InProgress | Replay(response: string)

  predicate ValidIntent(id: RequestId, kind: string, fingerprint: string) {
    NonEmpty(id, 256) && NonEmpty(kind, 128) && NonEmpty(fingerprint, 256)
  }

  /** The JSON check is the decoder's; everything else about a response is its length. */
  predicate ValidResponse(json: string -> bool, id: RequestId, response: string) {
    NonEmpty(id, 256) && NonEmpty(response, 64 * 1024) && json(response)
  }

  class SupervisorRequests {
    const json: string -> bool
    var table: Table

    constructor (json: string -> bool)
      ensures this.json == json && table == map[]
    {
      this.json := json;
      table := map[];
    }

    /** Insert-or-ignore and the lookup behind it are one transaction. */
    method Reserve(id: RequestId, kind: string, fingerprint: string) returns (r: Result<Reservation, Error>)
      modifies this
      ensures r == Reserved(old(table), id, kind, fingerprint)
      ensures table == AfterReserve(old(table), id, kind, fingerprint)
    {
      if !ValidIntent(id, kind, fingerprint) {
        return Err(InvalidRecord);
      }
      if id !in table {
        table := table[id := Row(kind, fingerprint, Pending, None)];
        return Ok(New);
      }
      var row := table[id];
      if row.kind != kind || row.fingerprint != fingerprint {
        return Err(Conflict);
      }
      match (row.lifecycle, row.response)
      case (Pending, None) => return Ok(InProgress);
      case (Completed, Some(response)) => return Ok(Replay(response));
      case (_, _) => return Err(CorruptState);
    }

    method Complete(id: RequestId, response: string) returns (r: Result<(), Error>)
      modifies this
      ensures r.Ok? <==> Completable(json, old(table), id, response)
      ensures r == Err(InvalidRecord) <==> !ValidResponse(json, id, response)
      ensures r == Err(Conflict) <==> ValidResponse(json, id, response) && !Completable(json, old(table), id, response)
      ensures table == AfterComplete(json, old(table), id, response)
    {
      if !ValidResponse(json, id, response) {
        return Err(InvalidRecord);
      }
      if id !in table || table[id].lifecycle != Pending {
        return Err(Conflict);
      }
      table := table[id := table[id].(lifecycle := Completed, response := Some(response))];
      return Ok(());
    }
  }

  function Reserved(t: Table, id: RequestId, kind: string, fingerprint: string): Result<Reservation, Error> {
    if !ValidIntent(id, kind, fingerprint) then Err(InvalidRecord)
    else if id !in t then Ok(New)
    else
      var row := t[id];
      if row.kind != kind || row.fingerprint != fingerprint then Err(Conflict)
      else if row.lifecycle == Pending && row.response == None then Ok(InProgress)
      else if row.lifecycle == Completed && row.response.Some? then Ok(Replay(row.response.value))
      else Err(CorruptState)
  }

  function AfterReserve(t: Table, id: RequestId, kind: string, fingerprint: string): Table {
    if ValidIntent(id, kind, fingerprint) && id !in t then t[id := Row(kind, fingerprint, Pending, None)] else t
  }

  predicate Completable(json: string -> bool, t: Table, id: RequestId, response: string) {
    ValidResponse(json, id, response) && id in t && t[id].lifecycle == Pending
  }

  function AfterComplete(json: string -> bool, t: Table, id: RequestId, response: string): Table {
    if Completable(json, t, id, response)
    then t[id := t[id].(lifecycle := Completed, response := Some(response))]
    else t
  }

  // ---------- Any interleaving of callers ----------

  datatype Call = ReserveCall(id: RequestId, kind: string, fingerprint: string)
                | CompleteCall(id: RequestId, response: string)

  function After(json: string -> bool, t: Table, call: Call): Table {
    match call
    case ReserveCall(id, kind, fingerprint) => AfterReserve(t, id, kind, fingerprint)
    case CompleteCall(id, response) => AfterComplete(json, t, id, response)
  }

  function TableAfter(json: string -> bool, calls: seq<Call>): Table {
    if calls == [] then map[] else After(json, TableAfter(json, calls[..|calls| - 1]), calls[|calls| - 1])
  }

  /** What call number `i` was answered, when it is a reservation. */
  function ReplyTo(json: string -> bool, calls: seq<Call>, i: nat): Result<Reservation, Error>
    requires i < |calls| && calls[i].ReserveCall?
  {
    Reserved(TableAfter(json, calls[..i]), calls[i].id, calls[i].kind, calls[i].fingerprint)
  }

  ghost predicate RowsOk(t: Table) {
    forall id :: id in t ==> (t[id].lifecycle == Completed <==> t[id].response.Some?)
  }

  /** Rows are never dropped, their intent never changes, and a response once stored stays. */
  ghost predicate Grows(t: Table, u: Table) {
    forall id :: id in t ==>
      && id in u && u[id].kind == t[id].kind && u[id].fingerprint == t[id].fingerprint
      && (t[id].response.Some? ==> u[id] == t[id])
  }

  lemma {:induction false} CallGrows(json: string -> bool, t: Table, call: Call)
    requires RowsOk(t)
    ensures RowsOk(After(json, t, call)) && Grows(t, After(json, t, call))
  {
  }

  lemma {:induction false} TableGrows(json: string -> bool, calls: seq<Call>, i: nat, j: nat)
    requires i <= j <= |calls|
    ensures RowsOk(TableAfter(json, calls[..j]))
    ensures Grows(TableAfter(json, calls[..i]), TableAfter(json, calls[..j]))
  {
    if j > 0 {
      assert calls[..j][..j - 1] == calls[..j - 1];
      TableGrows(json, calls, if i < j then i else j - 1, j - 1);
      CallGrows(json, TableAfter(json, calls[..j - 1]), calls[j - 1]);
    }
  }

  lemma {:induction false} ReserveLeavesRow(json: string -> bool, calls: seq<Call>, i: nat)
    requires i < |calls| && calls[i].ReserveCall? && ReplyTo(json, calls, i).Ok?
    ensures var t := TableAfter(json, calls[..i + 1]);
            && calls[i].id in t && t[calls[i].id].kind == calls[i].kind
            && t[calls[i].id].fingerprint == calls[i].fingerprint
  {
    assert calls[..i + 1][..i] == calls[..i];
  }

  /** Over all interleavings: at most one caller of a request is told to run it, every accepted
      caller has the same intent, and every replay carries the same response. */
  lemma {:induction false} RunsAtMostOnce(json: string -> bool, calls: seq<Call>, i: nat, j: nat)
    requires i < j < |calls| && calls[i].ReserveCall? && calls[j].ReserveCall? && calls[i].id == calls[j].id
    requires ReplyTo(json, calls, i).Ok? && ReplyTo(json, calls, j).Ok?
    ensures ReplyTo(json, calls, j).value != New
    ensures calls[i].kind == calls[j].kind && calls[i].fingerprint == calls[j].fingerprint
    ensures ReplyTo(json, calls, i).value.Replay? ==> ReplyTo(json, calls, j) == ReplyTo(json, calls, i)
  {
    ReserveLeavesRow(json, calls, i);
    TableGrows(json, calls, i, j);
    TableGrows(json, calls, i + 1, j);
  }

  /** A different intent for a known request is refused without effect; and the branch for a row
      that is neither pending nor completed is never taken. */
  lemma {:induction false} OtherIntentsConflict(json: string -> bool, calls: seq<Call>, i: nat)
    requires i < |calls| && calls[i].ReserveCall?
    ensures ReplyTo(json, calls, i) != Err(CorruptState)
    ensures var t := TableAfter(json, calls[..i]);
            ReplyTo(json, calls, i) == Err(Conflict) <==>
              && ValidIntent(calls[i].id, calls[i].kind, calls[i].fingerprint) && calls[i].id in t
              && (t[calls[i].id].kind != calls[i].kind || t[calls[i].id].fingerprint != calls[i].fingerprint)
    ensures ReplyTo(json, calls, i).Err? ==> TableAfter(json, calls[..i + 1]) == TableAfter(json, calls[..i])
  {
    TableGrows(json, calls, i, i);
    assert calls[..i + 1][..i] == calls[..i];
  }

  /** A replayed response is one that some earlier call completed the request with. */
  lemma {:induction false} ReplaysACompletion(json: string -> bool, calls: seq<Call>, n: nat, id: RequestId)
    requires n <= |calls| && id in TableAfter(json, calls[..n]) && TableAfter(json, calls[..n])[id].response.Some?
    ensures exists k :: 0 <= k < n && calls[k] == CompleteCall(id, TableAfter(json, calls[..n])[id].response.value)
  {
    assert calls[..n][..n - 1] == calls[..n - 1];
    var before := TableAfter(json, calls[..n - 1]);
    if id in before && before[id].response.Some? {
      TableGrows(json, calls, n - 1, n);
      ReplaysACompletion(json, calls, n - 1, id);
    } else {
      assert calls[n - 1] == CompleteCall(id, TableAfter(json, calls[..n])[id].response.value);
    }
  }

  // ---------- The answers, read off the calls ----------

  /** A reservation with texts of the right size. */
  predicate Names(call: Call, id: RequestId) {
    && call.ReserveCall? && call.id == id
    && NonEmpty(call.id, 256) && NonEmpty(call.kind, 128) && NonEmpty(call.fingerprint, 256)
  }

  /** A completion that carries a response. */
  predicate Answers(json: string -> bool, call: Call, id: RequestId) {
    && call.CompleteCall? && call.id == id
    && NonEmpty(call.id, 256) && NonEmpty(call.response, 65536) && json(call.response)
  }

  ghost predicate Unnamed(calls: seq<Call>, id: RequestId) {
    forall k :: 0 <= k < |calls| ==> !Names(calls[k], id)
  }

  /** The call that named the request first. */
  ghost predicate NamedFirst(calls: seq<Call>, f: nat, id: RequestId) {
    f < |calls| && Names(calls[f], id) && forall k :: 0 <= k < f ==> !Names(calls[k], id)
  }

  ghost predicate Unanswered(json: string -> bool, calls: seq<Call>, f: nat, id: RequestId) {
    forall k :: f < k < |calls| ==> !Answers(json, calls[k], id)
  }

  /** The first completion after call `f`. */
  ghost predicate AnsweredFirst(json: string -> bool, calls: seq<Call>, f: nat, k: nat, id: RequestId) {
    f < k < |calls| && Answers(json, calls[k], id) && forall m :: f < m < k ==> !Answers(json, calls[m], id)
  }

  lemma {:induction false} KnownExactly(json: string -> bool, calls: seq<Call>, id: RequestId)
    ensures id in TableAfter(json, calls) <==> !Unnamed(calls, id)
  {
    if calls != [] {
      var before := calls[..|calls| - 1];
      KnownExactly(json, before, id);
      assert forall k :: 0 <= k < |before| ==> before[k] == calls[k];
    }
  }

  /** What a request's row says about the calls. */
  ghost predicate RowTells(json: string -> bool, calls: seq<Call>, f: nat, id: RequestId, row: Row)
    requires f < |calls| && calls[f].ReserveCall?
  {
    && row.kind == calls[f].kind && row.fingerprint == calls[f].fingerprint
    && (Unanswered(json, calls, f, id) ==> row.lifecycle == Pending && row.response == None)
    && (forall k: nat :: AnsweredFirst(json, calls, f, k, id) ==>
          row.lifecycle == Completed && row.response == Some(calls[k].response))
  }

  /** A request's row holds the intent of the call that named it first and the response of the first
      completion after that. */
  lemma {:induction false} RowIsHistory(json: string -> bool, calls: seq<Call>, f: nat, id: RequestId)
    requires NamedFirst(calls, f, id)
    ensures id in TableAfter(json, calls) && RowTells(json, calls, f, id, TableAfter(json, calls)[id])
  {
    var n := |calls| - 1;
    var before, call := calls[..n], calls[n];
    assert before + [call] == calls;
    if f == n {
      NewRow(json, before, call, id);
    } else {
      NamedBefore(before, call, f, id);
      RowIsHistory(json, before, f, id);
      var row := TableAfter(json, before)[id];
      AfterRow(json, TableAfter(json, before), call, id);
      RowStep(json, before, call, f, id, row);
    }
  }

  lemma {:induction false} NamedBefore(before: seq<Call>, call: Call, f: nat, id: RequestId)
    requires NamedFirst(before + [call], f, id) && f < |before|
    ensures NamedFirst(before, f, id)
  {
    var calls := before + [call];
    assert forall k :: 0 <= k < |before| ==> calls[k] == before[k];
  }

  lemma {:induction false} NewRow(json: string -> bool, before: seq<Call>, call: Call, id: RequestId)
    requires NamedFirst(before + [call], |before|, id)
    ensures var calls := before + [call];
            id in TableAfter(json, calls) && RowTells(json, calls, |before|, id, TableAfter(json, calls)[id])
  {
    var calls := before + [call];
    assert calls[..|before|] == before && forall k :: 0 <= k < |before| ==> calls[k] == before[k];
    KnownExactly(json, before, id);
    assert TableAfter(json, calls)[id] == Row(call.kind, call.fingerprint, Pending, None);
  }

  lemma {:induction false} AfterRow(json: string -> bool, t: Table, call: Call, id: RequestId)
    requires id in t
    ensures id in After(json, t, call)
    ensures After(json, t, call)[id] ==
              if Answers(json, call, id) && t[id].lifecycle == Pending
              then t[id].(lifecycle := Completed, response := Some(call.response)) else t[id]
  {
  }

  /** One more call: only the first completion changes the row. */
  lemma {:induction false} RowStep(json: string -> bool, before: seq<Call>, call: Call, f: nat, id: RequestId, row: Row)
    requires f < |before| && before[f].ReserveCall? && RowTells(json, before, f, id, row)
    ensures var next := if Answers(json, call, id) && row.lifecycle == Pending
                        then row.(lifecycle := Completed, response := Some(call.response)) else row;
            RowTells(json, before + [call], f, id, next)
  {
    var calls, n := before + [call], |before|;
    forall k: nat ensures AnsweredFirst(json, calls, f, k, id) <==>
        AnsweredFirst(json, before, f, k, id) || (k == n && Answers(json, call, id) && Unanswered(json, before, f, id))
    {
      AnsweredSnoc(json, before, call, f, k, id);
    }
    UnansweredSnoc(json, before, call, f, id);
    if !Unanswered(json, before, f, id) {
      var k := FirstAnswer(json, before, f, id);
      assert AnsweredFirst(json, before, f, k, id);
    }
  }

  lemma {:induction false} UnansweredSnoc(json: string -> bool, before: seq<Call>, call: Call, f: nat, id: RequestId)
    requires f < |before|
    ensures Unanswered(json, before + [call], f, id) <==> Unanswered(json, before, f, id) && !Answers(json, call, id)
  {
    var calls := before + [call];
    assert calls[|before|] == call && forall k :: 0 <= k < |before| ==> calls[k] == before[k];
  }

  lemma {:induction false} AnsweredSnoc(json: string -> bool, before: seq<Call>, call: Call, f: nat, k: nat, id: RequestId)
    requires f < |before|
    ensures AnsweredFirst(json, before + [call], f, k, id) <==>
              || AnsweredFirst(json, before, f, k, id)
              || (k == |before| && Answers(json, call, id) && Unanswered(json, before, f, id))
  {
    var calls := before + [call];
    assert calls[|before|] == call && forall m :: 0 <= m < |before| ==> calls[m] == before[m];
  }

  lemma {:induction false} FirstAnswer(json: string -> bool, calls: seq<Call>, f: nat, id: RequestId) returns (k: nat)
    requires !Unanswered(json, calls, f, id)
    ensures AnsweredFirst(json, calls, f, k, id)
  {
    k :| f < k < |calls| && Answers(json, calls[k], id);
    while exists m :: f < m < k && Answers(json, calls[m], id)
      invariant f < k < |calls| && Answers(json, calls[k], id)
      decreases k
    {
      var m :| f < m < k && Answers(json, calls[m], id);
      k := m;
    }
  }

  lemma {:induction false} FirstName(calls: seq<Call>, id: RequestId) returns (f: nat)
    requires !Unnamed(calls, id)
    ensures NamedFirst(calls, f, id)
  {
    f :| 0 <= f < |calls| && Names(calls[f], id);
    while exists m :: 0 <= m < f && Names(calls[m], id)
      invariant f < |calls| && Names(calls[f], id)
      decreases f
    {
      var m :| 0 <= m < f && Names(calls[m], id);
      f := m;
    }
  }

  /** What the calls before a reservation say its answer is. */
  ghost predicate AnswerTold(json: string -> bool, before: seq<Call>, c: Call, r: Result<Reservation, Error>) {
    c.ReserveCall?
    && (r == Err(InvalidRecord) <==> !Names(c, c.id))
    && (Names(c, c.id) ==> (r == Ok(New) <==> Unnamed(before, c.id)))
    && (Names(c, c.id) ==> forall f: nat :: NamedFirst(before, f, c.id) ==> AnswerAfter(json, before, f, c, r))
  }

  ghost predicate AnswerAfter(json: string -> bool, before: seq<Call>, f: nat, c: Call, r: Result<Reservation, Error>)
    requires f < |before| && before[f].ReserveCall? && c.ReserveCall?
  {
    if before[f].kind != c.kind || before[f].fingerprint != c.fingerprint then r == Err(Conflict)
    else
      && (r == Ok(InProgress) <==> Unanswered(json, before, f, c.id))
      && forall k: nat :: AnsweredFirst(json, before, f, k, c.id) ==> r == Ok(Replay(before[k].response))
  }

  /** The answer to every reservation, read off the calls before it: new exactly if none of them named the
      request; refused exactly if the one that named it first had another intent; and otherwise in progress
      exactly until a completion, whose response is replayed from then on. */
  lemma {:induction false} AnswersExactly(json: string -> bool, calls: seq<Call>, i: nat)
    requires i < |calls| && calls[i].ReserveCall?
    ensures AnswerTold(json, calls[..i], calls[i], ReplyTo(json, calls, i))
  {
    var c, before := calls[i], calls[..i];
    KnownExactly(json, before, c.id);
    forall f: nat | NamedFirst(before, f, c.id) && Names(c, c.id)
      ensures AnswerAfter(json, before, f, c, ReplyTo(json, calls, i))
    {
      RowIsHistory(json, before, f, c.id);
      if !Unanswered(json, before, f, c.id) {
        var k := FirstAnswer(json, before, f, c.id);
        assert AnsweredFirst(json, before, f, k, c.id);
      }
    }
  }

  /** A completion takes effect exactly if it carries a response, the request was named, and no completion
      has come since. */
  lemma {:induction false} CompletesExactly(json: string -> bool, calls: seq<Call>, id: RequestId, response: string)
    ensures Completable(json, TableAfter(json, calls), id, response) <==>
              && Answers(json, CompleteCall(id, response), id)
              && exists f: nat :: NamedFirst(calls, f, id) && Unanswered(json, calls, f, id)
  {
    KnownExactly(json, calls, id);
    if !Unnamed(calls, id) {
      var f := FirstName(calls, id);
      RowIsHistory(json, calls, f, id);
      if !Unanswered(json, calls, f, id) {
        var k := FirstAnswer(json, calls, f, id);
        assert AnsweredFirst(json, calls, f, k, id);
      }
      assert forall g: nat :: NamedFirst(calls, g, id) ==> g == f;
    }
  }
}
