/** The content-type rule of `send_response_email` and the mail it submits.
    `mimetypes.guess_type` is a parameter: nothing is assumed about it. */
module Response {
  import opened Types
  import opened Transport

  /** The generic binary type used when no usable guess exists. */
  const OctetStream: string := "application/octet-stream"

  /** What `mimetypes.guess_type(path)` returns: `(type, encoding)`. */
  type Guess = (Option<string>, Option<string>)

  /** The content type used for an attachment: the guessed type, unless no
      type was guessed or an encoding (such as gzip) was reported. */
  function EffectiveContentType(g: Guess): string {
    if g.0.None? || g.1.Some? then OctetStream else g.0.value
  }

  /** Index `k` holds the first occurrence of `sep` in `s`. */
  ghost predicate FirstSeparatorAt(s: string, sep: char, k: int) {
    0 <= k < |s| && s[k] == sep && sep !in s[..k]
  }

  /** A string has at most one first occurrence of a separator. */
  lemma FirstSeparatorUnique(s: string, sep: char, k1: int, k2: int)
    requires FirstSeparatorAt(s, sep, k1) && FirstSeparatorAt(s, sep, k2)
    ensures k1 == k2
  {
  }

  /** `s.split(sep, 1)` unpacked into two names: the text before and after
      the first `sep`, or `None` where Python raises `ValueError` because the
      split produced a single piece. */
  function SplitOnce(s: string, sep: char): (r: Option<(string, string)>)
    ensures r.None? <==> sep !in s
    ensures r.Some? ==> exists k :: FirstSeparatorAt(s, sep, k) && r.value == (s[..k], s[k + 1..])
  {
    if |s| == 0 then None
    else if s[0] == sep then
      assert FirstSeparatorAt(s, sep, 0);
      Some(([], s[1..]))
    else
      match SplitOnce(s[1..], sep)
      case None => None
      case Some((before, after)) =>
        assert exists k :: FirstSeparatorAt(s, sep, k) && ([s[0]] + before, after) == (s[..k], s[k + 1..]) by {
          var k :| FirstSeparatorAt(s[1..], sep, k) && (before, after) == (s[1..][..k], s[1..][k + 1..]);
          assert s[..k + 1] == [s[0]] + s[1..][..k];
          assert FirstSeparatorAt(s, sep, k + 1);
        }
        Some(([s[0]] + before, after))
  }

  /** `sub` is the text after the first '/' of content type `ct`. */
  ghost predicate SubtypeOf(ct: string, sub: string) {
    exists k :: FirstSeparatorAt(ct, '/', k) && sub == ct[k + 1..]
  }

  /** The MIME subtype an attachment is labelled with, or `ValueError` when
      its effective content type holds no '/'. */
  function AttachmentSubtype(path: string, guess: string -> Guess): (r: Result<string>)
    ensures r.Failure? <==> '/' !in EffectiveContentType(guess(path))
    ensures r.Failure? ==> r.fault == ValueError
    ensures r.Success? ==> SubtypeOf(EffectiveContentType(guess(path)), r.value)
  {
    match SplitOnce(EffectiveContentType(guess(path)), '/')
    case None => Failure(ValueError)
    case Some((_, sub)) => Success(sub)
  }

  /** Splitting `main + "/" + sub`, where `main` holds no '/', gives back
      `main` and `sub`: the split inverts the join. */
  lemma SplitOnceJoined(main: string, sub: string)
    requires '/' !in main
    ensures SplitOnce(main + "/" + sub, '/') == Some((main, sub))
  {
    var ct := main + "/" + sub;
    assert ct[..|main|] == main;
    assert FirstSeparatorAt(ct, '/', |main|);
    var k :| FirstSeparatorAt(ct, '/', k) && SplitOnce(ct, '/').value == (ct[..k], ct[k + 1..]);
    FirstSeparatorUnique(ct, '/', k, |main|);
  }

  /** With no guessed type, or with a reported encoding, the attachment is
      labelled with subtype `octet-stream`, whatever the path. */
  lemma FallbackIsOctetStream(path: string, guess: string -> Guess)
    requires guess(path).0.None? || guess(path).1.Some?
    ensures AttachmentSubtype(path, guess) == Success("octet-stream")
  {
    assert OctetStream == "application" + "/" + "octet-stream";
    SplitOnceJoined("application", "octet-stream");
  }

  /** A guessed type without an encoding keeps its own subtype. */
  lemma GuessedTypeKept(path: string, guess: string -> Guess, main: string, sub: string)
    requires guess(path) == (Some(main + "/" + sub), None)
    requires '/' !in main
    ensures AttachmentSubtype(path, guess) == Success(sub)
  {
    SplitOnceJoined(main, sub);
  }

  /** Every attachment path is labelled with the subtype of its effective
      content type, in the order given. */
  ghost predicate LabelsAttachments(parts: seq<Part>, paths: seq<string>, guess: string -> Guess) {
    && |parts| == |paths|
    && forall i :: 0 <= i < |paths| ==>
         && parts[i].path == paths[i]
         && SubtypeOf(EffectiveContentType(guess(paths[i])), parts[i].subtype)
  }

  /** `send_response_email(to, subject, body, paths)`. Each path gets one
      attachment in order; a content type without '/' raises `ValueError`
      before anything is sent. Otherwise exactly one `send` is issued;
      failures of that request are caught and logged by the source, so they
      do not change the outcome. */
  method SendResponseEmail(to: string, subject: string, body: string, paths: seq<string>,
                           guess: string -> Guess, w: World)
    returns (r: Result<()>, after: World)
    ensures r.Failure? <==> exists i :: 0 <= i < |paths| && '/' !in EffectiveContentType(guess(paths[i]))
    ensures r.Failure? ==> r.fault == ValueError && after == w
    ensures r.Success? ==> after.inbox == w.inbox && after.store == w.store
    ensures r.Success? ==>
              && |after.log| == |w.log| + 1
              && after.log[..|w.log|] == w.log
              && after.log[|w.log|].Send?
              && after.log[|w.log|].mail.to == to
              && after.log[|w.log|].mail.subject == subject
              && after.log[|w.log|].mail.body == body
              && LabelsAttachments(after.log[|w.log|].mail.parts, paths, guess)
  {
    var parts: seq<Part> := [];
    for i := 0 to |paths|
      invariant LabelsAttachments(parts, paths[..i], guess)
      invariant forall k :: 0 <= k < i ==> '/' in EffectiveContentType(guess(paths[k]))
    {
      var sub := AttachmentSubtype(paths[i], guess);
      if sub.Failure? {
        return Failure(ValueError), w;
      }
      parts := parts + [Part(paths[i], sub.value)];
    }
    assert paths[..|paths|] == paths;
    after := Issue(w, Send(Outgoing(to, subject, body, parts)));
    assert after.log[..|w.log|] == w.log;
    return Success(()), after;
  }
}
