/** Inbox consumption (`get_latest_email`): read the first listed message,
    and trash it when the service returned something. */
module Inbox {
  import opened Types
  import opened Headers
  import opened Transport

  /** The `(sender, subject)` pair handed to the parser; either header may be
      missing from the message. */
  type SenderSubject = (Option<string>, Option<string>)

  /** The first listed message exists and its fetched response is truthy. */
  predicate FirstIsTruthy(w: World) {
    && |w.inbox| > 0
    && w.inbox[0] in w.store
    && w.store[w.inbox[0]].Some?
  }

  /** The `From` and `Subject` header values of a message. */
  function SenderAndSubject(m: Message): SenderSubject {
    (GetHeaderValue(m.headers, "From"), GetHeaderValue(m.headers, "Subject"))
  }

  /** Lists the inbox, fetches only the first listed id, and trashes that id
      exactly once when (and only when) the fetched response is truthy,
      whatever the message says. An empty listing ends the call with no
      fetch and no trash; an id the service does not know makes `get` raise. */
  method GetLatestEmail(w: World) returns (r: Result<Option<SenderSubject>>, after: World)
    ensures after.store == w.store
    ensures Fetched(after.log) == Fetched(w.log) + (if |w.inbox| > 0 then [w.inbox[0]] else [])
    ensures Trashed(after.log) == Trashed(w.log) + (if FirstIsTruthy(w) then [w.inbox[0]] else [])
    ensures Downloaded(after.log) == Downloaded(w.log)
    ensures Sent(after.log) == Sent(w.log)
    ensures FirstIsTruthy(w) ==> after.inbox == RemoveId(w.inbox, w.inbox[0])
    ensures !FirstIsTruthy(w) ==> after.inbox == w.inbox
    ensures FirstIsTruthy(w) ==> after.log == w.log + [List, Get(w.inbox[0]), Trash(w.inbox[0])]
    ensures r.Failure? <==> |w.inbox| > 0 && w.inbox[0] !in w.store
    ensures r.Failure? ==> r.fault == TransportError
    ensures (r.Success? && r.value.Some?) <==> FirstIsTruthy(w)
    ensures FirstIsTruthy(w) ==> r.value.value == SenderAndSubject(w.store[w.inbox[0]].value)
  {
    var listed := Issue(w, List);
    if |w.inbox| == 0 {
      ProjectionsAppend(w.log, [List]);
      return Success(None), listed;
    }
    var id := w.inbox[0];
    var got := Issue(listed, Get(id));
    assert got.log == w.log + [List, Get(id)];
    ProjectionsAppend(w.log, [List, Get(id)]);
    if id !in w.store {
      return Failure(TransportError), got;
    }
    var message := w.store[id];
    if message.Some? {
      var sender := GetHeaderValue(message.value.headers, "From");
      var subject := GetHeaderValue(message.value.headers, "Subject");
      after := TrashMessage(got, id);
      assert after.log == w.log + [List, Get(id), Trash(id)];
      ProjectionsAppend(w.log, [List, Get(id), Trash(id)]);
      return Success(Some((sender, subject))), after;
    }
    return Success(None), got;
  }
}
