/** One run of the bot (`main`): consume the latest inbox message, parse its
    subject, and answer the single known command by downloading two camera
    images and mailing them back. Authentication is outside this model. */
module Bot {
  import opened Types
  import opened Transport
  import opened Command
  import opened Inbox
  import opened Response

  /** The only token that triggers an action. */
  const SendCams: string := "send_cams"

  const FrontUrl: string := "<URL_HERE>"
  const BackUrl: string := "<URL_HERE>"
  const FrontPath: string := "./front-porch.jpg"
  const BackPath: string := "./back-yard.jpg"

  const ReplyTo: string := "<YOUR_EMAIL_HERE>"
  const ReplySubject: string := "Response with Image"
  const ReplyBody: string := "Here is the image you requested!"

  /** The first listed message is truthy and parses to the token `send_cams`. */
  predicate Commanded(w: World) {
    && FirstIsTruthy(w)
    && var ss := SenderAndSubject(w.store[w.inbox[0]].value);
       ParseCommand(ss.0, ss.1) == Success(Some(SendCams))
  }

  /** The first listed message is truthy but carries no `Subject` header,
      so the parser raises. */
  predicate SubjectMissing(w: World) {
    FirstIsTruthy(w) && SenderAndSubject(w.store[w.inbox[0]].value).1.None?
  }

  /** Both camera images get a content type that can be split on '/'. */
  predicate ImagesTypable(guess: string -> Guess) {
    && '/' in EffectiveContentType(guess(FrontPath))
    && '/' in EffectiveContentType(guess(BackPath))
  }

  /** The reply fails to assemble exactly when one of the two images has a
      content type without '/'. */
  lemma TypableIsNoBadPath(guess: string -> Guess)
    ensures (exists i :: 0 <= i < 2 && '/' !in EffectiveContentType(guess([FrontPath, BackPath][i])))
            <==> !ImagesTypable(guess)
  {
    assert [FrontPath, BackPath][0] == FrontPath && [FrontPath, BackPath][1] == BackPath;
  }

  /** `log` is `base` followed by exactly the reply mail: addressed to the
      owner, with the fixed subject and body, and the two camera images
      attached front first. */
  ghost predicate RepliedAfter(log: seq<Event>, base: seq<Event>, guess: string -> Guess) {
    && |log| == |base| + 1
    && log[..|base|] == base
    && log[|base|].Send?
    && log[|base|].mail.to == ReplyTo
    && log[|base|].mail.subject == ReplySubject
    && log[|base|].mail.body == ReplyBody
    && LabelsAttachments(log[|base|].mail.parts, [FrontPath, BackPath], guess)
  }

  /** The dispatch branch of `main`: the token `send_cams` downloads the front
      and then the back image and mails both back; any other token, or no
      token, does nothing at all. */
  method Dispatch(command: Option<string>, w: World, guess: string -> Guess)
    returns (r: Result<()>, after: World)
    ensures command != Some(SendCams) ==> r == Success(()) && after == w
    ensures after.store == w.store && after.inbox == w.inbox
    ensures Fetched(after.log) == Fetched(w.log) && Trashed(after.log) == Trashed(w.log)
    ensures command == Some(SendCams) ==>
              Downloaded(after.log) == Downloaded(w.log) + [(FrontUrl, FrontPath), (BackUrl, BackPath)]
    ensures command == Some(SendCams) ==> (r.Failure? <==> !ImagesTypable(guess))
    ensures r.Failure? ==> r.fault == ValueError && Sent(after.log) == Sent(w.log)
    ensures command == Some(SendCams) && r.Success? ==>
              RepliedAfter(after.log, w.log + [Download(FrontUrl, FrontPath), Download(BackUrl, BackPath)], guess)
  {
    if command != Some(SendCams) {
      return Success(()), w;
    }
    var downloads := [Download(FrontUrl, FrontPath), Download(BackUrl, BackPath)];
    var downloaded := Issue(Issue(w, downloads[0]), downloads[1]);
    assert downloaded.log == w.log + downloads;
    ProjectionsAppend(w.log, downloads);
    var paths := [FrontPath, BackPath];
    TypableIsNoBadPath(guess);
    r, after := SendResponseEmail(ReplyTo, ReplySubject, ReplyBody, paths, guess, downloaded);
    if r.Success? {
      var sent := after.log[|downloaded.log|];
      assert after.log == downloaded.log + [sent];
      ProjectionsAppend(downloaded.log, [sent]);
    }
  }

  /** One run of `main`. The first listed message is trashed whenever it was
      fetched truthy, whatever its sender or subject; downloads and the reply
      happen only for the exact token `send_cams`. */
  method Run(w: World, guess: string -> Guess) returns (r: Result<()>, after: World)
    ensures after.store == w.store
    ensures Fetched(after.log) == Fetched(w.log) + (if |w.inbox| > 0 then [w.inbox[0]] else [])
    ensures Trashed(after.log) == Trashed(w.log) + (if FirstIsTruthy(w) then [w.inbox[0]] else [])
    ensures !Commanded(w) ==> Downloaded(after.log) == Downloaded(w.log) && Sent(after.log) == Sent(w.log)
    ensures Commanded(w) ==>
              Downloaded(after.log) == Downloaded(w.log) + [(FrontUrl, FrontPath), (BackUrl, BackPath)]
    ensures r.Failure? <==>
              || (|w.inbox| > 0 && w.inbox[0] !in w.store)
              || SubjectMissing(w)
              || (Commanded(w) && !ImagesTypable(guess))
    ensures |w.inbox| > 0 && w.inbox[0] !in w.store ==> r == Failure(TransportError)
    ensures SubjectMissing(w) ==> r == Failure(TypeError)
    ensures Commanded(w) && !ImagesTypable(guess) ==> r == Failure(ValueError)
    ensures r.Failure? ==> Sent(after.log) == Sent(w.log)
    ensures FirstIsTruthy(w) ==> after.inbox == RemoveId(w.inbox, w.inbox[0])
    ensures !FirstIsTruthy(w) ==> after.inbox == w.inbox
    ensures Commanded(w) && r.Success? ==>
              RepliedAfter(after.log,
                           w.log + [List, Get(w.inbox[0]), Trash(w.inbox[0]),
                                    Download(FrontUrl, FrontPath), Download(BackUrl, BackPath)],
                           guess)
  {
    var latest, consumed := GetLatestEmail(w);
    if latest.Failure? {
      return Failure(latest.fault), consumed;
    }
    if latest.value.None? {
      return Success(()), consumed;
    }
    var (sender, subject) := latest.value.value;
    var command := ParseCommand(sender, subject);
    if command.Failure? {
      return Failure(command.fault), consumed;
    }
    r, after := Dispatch(command.value, consumed, guess);
    assert consumed.log + [Download(FrontUrl, FrontPath), Download(BackUrl, BackPath)] ==
           w.log + [List, Get(w.inbox[0]), Trash(w.inbox[0]),
                    Download(FrontUrl, FrontPath), Download(BackUrl, BackPath)];
  }
}
