/** The command parser (`parse_command`): sender authorisation plus a search
    for the subject pattern `^cmd: (\w+)$` under Python `re.search` rules
    with no flags. Without MULTILINE, `^` can only succeed at index 0, and
    `$` succeeds at the end of the string or just before one final newline. */
module Command {
  import opened Types

  /** The only sender whose mail is obeyed (`ALLOWED_USER`). */
  const AllowedUser: string := "<YOUR_EMAIL_HERE>"

  /** The literal text the pattern requires after `^`. */
  const Prefix: string := "cmd: "

  /** Python's `\w`, approximated by its ASCII members. */
  predicate IsWordChar(c: char) {
    || ('a' <= c <= 'z')
    || ('A' <= c <= 'Z')
    || ('0' <= c <= '9')
    || c == '_'
  }

  predicate AllWord(t: string) {
    forall i :: 0 <= i < |t| ==> IsWordChar(t[i])
  }

  /** Where `$` (without MULTILINE) succeeds: at the end of `s`, or just
      before a newline that is the last character of `s`. */
  predicate EndAnchorAt(s: string, j: int) {
    || j == |s|
    || (0 <= j && j == |s| - 1 && s[j] == '\n')
  }

  /** The pattern matches `s` from index 0 with group 1 ending at `j`. */
  ghost predicate MatchEndsAt(s: string, j: int) {
    && |Prefix| < j <= |s|
    && s[..|Prefix|] == Prefix
    && AllWord(s[|Prefix|..j])
    && EndAnchorAt(s, j)
  }

  /** The end of the longest run of word characters starting at `i`: the
      greedy extent of `\w+`. */
  function WordRunEnd(s: string, i: nat): (j: nat)
    requires i <= |s|
    ensures i <= j <= |s|
    ensures forall k :: i <= k < j ==> IsWordChar(s[k])
    ensures j == |s| || !IsWordChar(s[j])
    decreases |s| - i
  {
    if i < |s| && IsWordChar(s[i]) then WordRunEnd(s, i + 1) else i
  }

  /** At most one end position satisfies the pattern, so backtracking from
      the greedy run can never find a different group 1. */
  lemma MatchEndIsGreedyEnd(s: string, j: int)
    requires MatchEndsAt(s, j)
    ensures j == WordRunEnd(s, |Prefix|)
  {
  }

  /** `re.search(r"^cmd: (\w+)$", s)`: group 1 of the match, or `None`. */
  function SearchCommand(s: string): (r: Option<string>)
    ensures r.None? <==> forall j :: !MatchEndsAt(s, j)
    ensures r.Some? ==> exists j :: MatchEndsAt(s, j) && r.value == s[|Prefix|..j]
  {
    if |s| >= |Prefix| && s[..|Prefix|] == Prefix then
      var j := WordRunEnd(s, |Prefix|);
      if j > |Prefix| && EndAnchorAt(s, j) then
        assert MatchEndsAt(s, j);
        Some(s[|Prefix|..j])
      else
        assert forall j' :: MatchEndsAt(s, j') ==> j' == j by {
          forall j' | MatchEndsAt(s, j') ensures j' == j { MatchEndIsGreedyEnd(s, j'); }
        }
        None
    else
      None
  }

  /** The subject shapes the pattern accepts: the prefix, a non-empty run of
      word characters, and at most one final newline. */
  ghost predicate CommandSubject(s: string, t: string) {
    && |t| > 0
    && AllWord(t)
    && (s == Prefix + t || s == Prefix + t + "\n")
  }

  /** The search yields `t` exactly when the subject is `"cmd: " + t`,
      optionally followed by one newline, with `t` a non-empty word. */
  lemma SearchCommandShape(s: string, t: string)
    ensures SearchCommand(s) == Some(t) <==> CommandSubject(s, t)
  {
    var p := |Prefix|;
    if SearchCommand(s) == Some(t) {
      var j :| MatchEndsAt(s, j) && t == s[p..j];
      if j == |s| {
        assert s == s[..p] + s[p..j];
      } else {
        assert s == s[..p] + s[p..j] + [s[j]];
      }
    }
    if CommandSubject(s, t) {
      var j := p + |t|;
      assert s[..p] == Prefix;
      assert s[p..j] == t;
      assert MatchEndsAt(s, j);
      MatchEndIsGreedyEnd(s, j);
    }
  }

  /** `parse_command((sender, subject))`. The pattern is searched before the
      sender is compared, so a missing subject raises `TypeError` whatever
      the sender; otherwise the token is returned only to the allowed
      sender, and every other case is a silent `None`. */
  function ParseCommand(sender: Option<string>, subject: Option<string>): (r: Result<Option<string>>)
    ensures r.Failure? <==> subject.None?
    ensures r.Failure? ==> r.fault == TypeError
    ensures subject.Some? && sender != Some(AllowedUser) ==> r == Success(None)
    ensures r.Success? && r.value.Some? ==>
              && sender == Some(AllowedUser)
              && |r.value.value| > 0
              && AllWord(r.value.value)
              && Prefix + r.value.value == StripFinalNewline(subject.value)
  {
    match subject
    case None => Failure(TypeError)
    case Some(s) =>
      var m := SearchCommand(s);
      if sender == Some(AllowedUser) && m.Some? then
        SearchCommandShape(s, m.value);
        Success(Some(m.value))
      else
        Success(None)
  }

  /** `s` less one trailing newline, if it has one. */
  function StripFinalNewline(s: string): string {
    if |s| > 0 && s[|s| - 1] == '\n' then s[..|s| - 1] else s
  }

  /** Both directions: the parser yields token `t` exactly when the sender is
      the allowed user and the subject is `"cmd: " + t` (optionally with one
      final newline) for a non-empty word `t`. */
  lemma ParseCommandAccepts(sender: Option<string>, subject: Option<string>, t: string)
    ensures ParseCommand(sender, subject) == Success(Some(t)) <==>
              && sender == Some(AllowedUser)
              && subject.Some?
              && CommandSubject(subject.value, t)
  {
    if subject.Some? {
      SearchCommandShape(subject.value, t);
    }
  }

  /** A subject that is not the prefix followed by a word (and at most one
      newline) is rejected whatever the sender. */
  lemma MalformedSubjectRejected(sender: Option<string>, s: string)
    requires forall t :: !CommandSubject(s, t)
    ensures ParseCommand(sender, Some(s)) == Success(None)
  {
    var r := ParseCommand(sender, Some(s));
    if r.Success? && r.value.Some? {
      ParseCommandAccepts(sender, Some(s), r.value.value);
    }
  }

  /** The token is the captured text verbatim: no case folding. */
  lemma ParseCommandKeepsCase()
    ensures ParseCommand(Some(AllowedUser), Some("cmd: SEND_CAMS")) == Success(Some("SEND_CAMS"))
    ensures ParseCommand(Some(AllowedUser), Some("cmd: send_cams\n")) == Success(Some("send_cams"))
  {
    ParseCommandAccepts(Some(AllowedUser), Some("cmd: SEND_CAMS"), "SEND_CAMS");
    assert Prefix + "SEND_CAMS" == "cmd: SEND_CAMS";
    ParseCommandAccepts(Some(AllowedUser), Some("cmd: send_cams\n"), "send_cams");
    assert Prefix + "send_cams" + "\n" == "cmd: send_cams\n";
  }
}
