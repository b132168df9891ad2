/** An abstract Gmail account and everything the bot does to the outside
    world, kept as one immutable state record. The service's `list`, `get`,
    `trash` and `send` requests and the HTTP image downloads become events
    appended, in order, to a log. */
module Transport {
  import opened Types
  import opened Headers

  type MessageId = string

  /** A fetched message as far as the bot reads it: `payload['headers']`. */
  datatype Message = Message(headers: seq<Header>)

  /** One binary attachment of an outgoing mail: the local file it was read
      from and the MIME subtype it is labelled with. */
  datatype Part = Part(path: string, subtype: string)

  /** An outgoing mail: recipient, subject, plain-text body and attachments
      in the order they were attached. */
  datatype Outgoing = Outgoing(to: string, subject: string, body: string, parts: seq<Part>)

  /** One request issued to the outside world. */
  datatype Event =
    | List                                 // messages().list(labelIds=['INBOX'])
    | Get(id: MessageId)                   // messages().get(id)
    | Trash(id: MessageId)                 // messages().trash(id)
    | Download(url: string, path: string)  // HTTP GET written to a local file
    | Send(mail: Outgoing)                 // messages().send(...)

  /** The account as the bot sees it: the ids the inbox listing returns, in
      the service's order; the response `get` gives for each known id, with
      `None` standing for an empty (falsy) response; and the request log. */
  datatype World = World(
    inbox: seq<MessageId>,
    store: map<MessageId, Option<Message>>,
    log: seq<Event>)

  /** Records one request. */
  function Issue(w: World, e: Event): World {
    w.(log := w.log + [e])
  }

  /** `inbox` without any occurrence of `id`. */
  function RemoveId(inbox: seq<MessageId>, id: MessageId): (r: seq<MessageId>)
    ensures id !in r
    ensures forall x :: x in r <==> x in inbox && x != id
    ensures |r| <= |inbox|
  {
    if |inbox| == 0 then []
    else if inbox[0] == id then RemoveId(inbox[1..], id)
    else [inbox[0]] + RemoveId(inbox[1..], id)
  }

  /** Moving a message to the trash takes it out of the inbox listing and
      leaves every stored message as it was. */
  function TrashMessage(w: World, id: MessageId): World {
    Issue(w, Trash(id)).(inbox := RemoveId(w.inbox, id))
  }

  predicate DistinctIds(inbox: seq<MessageId>) {
    forall i, j :: 0 <= i < j < |inbox| ==> inbox[i] != inbox[j]
  }

  /** With distinct ids (as the service lists them), trashing the first
      listed message leaves exactly the rest of the listing, in order. */
  lemma {:induction false} TrashFirstLeavesRest(inbox: seq<MessageId>)
    requires |inbox| > 0
    requires DistinctIds(inbox)
    ensures RemoveId(inbox, inbox[0]) == inbox[1..]
  {
    KeepAllWhenAbsent(inbox[1..], inbox[0]);
  }

  /** Removing an id that is not listed changes nothing. */
  lemma {:induction false} KeepAllWhenAbsent(inbox: seq<MessageId>, id: MessageId)
    requires id !in inbox
    ensures RemoveId(inbox, id) == inbox
    decreases |inbox|
  {
    if |inbox| > 0 {
      KeepAllWhenAbsent(inbox[1..], id);
      assert [inbox[0]] + inbox[1..] == inbox;
    }
  }

  /** The ids trashed, in log order. */
  function Trashed(log: seq<Event>): seq<MessageId> {
    if |log| == 0 then []
    else Trashed(log[..|log| - 1]) + (if log[|log| - 1].Trash? then [log[|log| - 1].id] else [])
  }

  /** The ids fetched with `get`, in log order. */
  function Fetched(log: seq<Event>): seq<MessageId> {
    if |log| == 0 then []
    else Fetched(log[..|log| - 1]) + (if log[|log| - 1].Get? then [log[|log| - 1].id] else [])
  }

  /** The (url, path) pairs downloaded, in log order. */
  function Downloaded(log: seq<Event>): seq<(string, string)> {
    if |log| == 0 then []
    else
      var e := log[|log| - 1];
      Downloaded(log[..|log| - 1]) + (if e.Download? then [(e.url, e.path)] else [])
  }

  /** The mails submitted with `send`, in log order. */
  function Sent(log: seq<Event>): seq<Outgoing> {
    if |log| == 0 then []
    else Sent(log[..|log| - 1]) + (if log[|log| - 1].Send? then [log[|log| - 1].mail] else [])
  }

  /** Each projection of the log distributes over appending events. */
  lemma {:induction false} ProjectionsAppend(log: seq<Event>, more: seq<Event>)
    ensures Trashed(log + more) == Trashed(log) + Trashed(more)
    ensures Fetched(log + more) == Fetched(log) + Fetched(more)
    ensures Downloaded(log + more) == Downloaded(log) + Downloaded(more)
    ensures Sent(log + more) == Sent(log) + Sent(more)
    decreases |more|
  {
    if |more| > 0 {
      var init := more[..|more| - 1];
      ProjectionsAppend(log, init);
      assert (log + more)[..|log + more| - 1] == log + init;
    } else {
      assert log + more == log;
    }
  }
}
