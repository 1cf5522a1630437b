/** One run of the continue-on-error-comment action (index.js:8-65) as a
    decision: given the event, the step inputs and the comments already on
    the pull request, which single write (if any) the run makes. The REST
    calls themselves are not modelled; their inputs and results are the
    parameters and the returned `Action`. */
module ContinueOnError {
  import opened Text
  import opened CommentBody

  datatype Option<T> = None | Some(value: T)

  /** What the run reads from the event context. */
  datatype Context = Context(eventName: string, sha: string)

  /** The four required step inputs, raw, as the runner supplies them.
      `getInput` tests a required input for emptiness before it trims it,
      and returns the trimmed value. */
  datatype Inputs = Inputs(repoToken: string, outcome: string, testId: string, botUser: string)
  {
    /** `getInput("outcome")`. */
    function Outcome(): string { Trim(outcome) }

    /** `getInput("test-id")`. */
    function TestId(): string { Trim(testId) }

    /** `getInput("bot-user")`. */
    function BotUser(): string { Trim(botUser) }
  }

  /** An issue comment as `listComments` returns it: its id, its author's
      login and its body. */
  datatype Comment = Comment(id: int, login: string, body: string)

  /** What a run does. `Ignore`: not a pull request event, only a log line.
      `Fail`: the step is marked failed with `message`. `Skip`: the outcome
      is not a failure, nothing is written. `Update` and `Create`: the one
      REST write the run makes. */
  datatype Action =
    | Ignore
    | Fail(message: string)
    | Skip
    | Update(commentId: int, body: string)
    | Create(issueNumber: int, body: string)

  /** The name of the first required input whose raw value is empty, in
      the order the run reads them; `getInput(…, { required: true })`
      throws on it. */
  function MissingInput(inputs: Inputs): (r: Option<string>)
    ensures r.None? <==>
      inputs.repoToken != "" && inputs.outcome != "" && inputs.testId != "" && inputs.botUser != ""
    ensures r.Some? ==> r.value in {"repo-token", "outcome", "test-id", "bot-user"}
    ensures r == Some("repo-token") ==> inputs.repoToken == ""
    ensures r == Some("outcome") ==> inputs.repoToken != "" && inputs.outcome == ""
    ensures r == Some("test-id") ==> inputs.repoToken != "" && inputs.outcome != "" && inputs.testId == ""
    ensures r == Some("bot-user") ==>
      inputs.repoToken != "" && inputs.outcome != "" && inputs.testId != "" && inputs.botUser == ""
  {
    if inputs.repoToken == "" then Some("repo-token")
    else if inputs.outcome == "" then Some("outcome")
    else if inputs.testId == "" then Some("test-id")
    else if inputs.botUser == "" then Some("bot-user")
    else None
  }

  /** The `find` predicate: written by the bot account, ending with the
      signature and holding `sha: <sha>` for the current commit. */
  predicate Matches(c: Comment, botUser: string, sha: string, signature: string)
  {
    c.login == botUser && EndsWith(c.body, signature) && Includes(c.body, "sha: " + sha)
  }

  /** `comments.find(…)`, as an index: the first matching comment in list
      order, or none when no comment matches. */
  function FirstMatch(comments: seq<Comment>, botUser: string, sha: string, signature: string): (r: Option<nat>)
    ensures r.Some? ==>
      r.value < |comments| && Matches(comments[r.value], botUser, sha, signature) &&
      forall j :: 0 <= j < r.value ==> !Matches(comments[j], botUser, sha, signature)
    ensures r.None? <==> forall j :: 0 <= j < |comments| ==> !Matches(comments[j], botUser, sha, signature)
  {
    if |comments| == 0 then None
    else if Matches(comments[0], botUser, sha, signature) then Some(0)
    else
      match FirstMatch(comments[1..], botUser, sha, signature)
      case None => None
      case Some(i) => Some(i + 1)
  }

  /** The guards in front of the write: a pull request event, all inputs
      given and a failed outcome. */
  predicate WillWrite(ctx: Context, inputs: Inputs)
  {
    ctx.eventName == "pull_request" && MissingInput(inputs).None? && inputs.Outcome() == "failure"
  }

  /** The whole run. `issueNumber` is the pull request number the lookup
      returned and `comments` what `listComments` returned for it. */
  function Decide(ctx: Context, inputs: Inputs, signature: string, issueNumber: int, comments: seq<Comment>): (r: Action)
    ensures r == Ignore <==> ctx.eventName != "pull_request"
    ensures r.Fail? <==> ctx.eventName == "pull_request" && MissingInput(inputs).Some?
    ensures r == Skip <==>
      ctx.eventName == "pull_request" && MissingInput(inputs).None? && inputs.Outcome() != "failure"
    ensures r.Update? ==> (WillWrite(ctx, inputs) &&
      exists i :: 0 <= i < |comments| && FirstMatch(comments, inputs.BotUser(), ctx.sha, signature) == Some(i) &&
        r == Update(comments[i].id, UpdatedBody(comments[i].body, inputs.TestId())))
    ensures r.Create? <==> (WillWrite(ctx, inputs) &&
      forall j :: 0 <= j < |comments| ==> !Matches(comments[j], inputs.BotUser(), ctx.sha, signature))
    ensures r.Create? ==> r == Create(issueNumber, CreateBody(inputs.TestId(), ctx.sha, signature))
  {
    if ctx.eventName != "pull_request" then Ignore
    else match MissingInput(inputs)
      case Some(name) => Fail("Input required and not supplied: " + name)
      case None =>
        if inputs.Outcome() != "failure" then Skip
        else match FirstMatch(comments, inputs.BotUser(), ctx.sha, signature)
          case Some(i) => Update(comments[i].id, UpdatedBody(comments[i].body, inputs.TestId()))
          case None => Create(issueNumber, CreateBody(inputs.TestId(), ctx.sha, signature))
  }

  /** Adding comments after a matching one does not change which comment
      the locator picks. */
  lemma FirstMatchAppendAfter(comments: seq<Comment>, more: seq<Comment>,
                                                 botUser: string, sha: string, signature: string)
    requires FirstMatch(comments, botUser, sha, signature).Some?
    ensures FirstMatch(comments + more, botUser, sha, signature) == FirstMatch(comments, botUser, sha, signature)
  {
    var i := FirstMatch(comments, botUser, sha, signature).value;
    forall j | 0 <= j <= i ensures (comments + more)[j] == comments[j] {
    }
  }

  /** When no comment matches, a comment appended at the end that matches
      is the one found. */
  lemma FirstMatchAppendOnly(comments: seq<Comment>, c: Comment, botUser: string, sha: string, signature: string)
    requires FirstMatch(comments, botUser, sha, signature).None?
    requires Matches(c, botUser, sha, signature)
    ensures FirstMatch(comments + [c], botUser, sha, signature) == Some(|comments|)
  {
    var all := comments + [c];
    assert all[|comments|] == c;
    forall j | 0 <= j < |comments| ensures !Matches(all[j], botUser, sha, signature) {
      assert all[j] == comments[j];
    }
  }

  /** A comment created by the bot account is found again: a later failing
      test on the same commit updates it instead of creating another one.
      The new comment's author is the account behind `repo-token`; nothing
      in the action checks that it is `bot-user`, and this lemma assumes it
      is. */
  lemma CreatedCommentFoundAgain(ctx: Context, first: Inputs, next: Inputs, signature: string,
                                 issueNumber: int, comments: seq<Comment>, newId: int)
    requires Decide(ctx, first, signature, issueNumber, comments).Create?
    requires WillWrite(ctx, next) && next.BotUser() == first.BotUser()
    ensures var created := Decide(ctx, first, signature, issueNumber, comments).body;
      Decide(ctx, next, signature, issueNumber, comments + [Comment(newId, first.BotUser(), created)]) ==
        Update(newId, UpdatedBody(created, next.TestId()))
  {
    var created := CreateBody(first.TestId(), ctx.sha, signature);
    CreatedBodyMarkers(first.TestId(), ctx.sha, signature);
    FirstMatchAppendOnly(comments, Comment(newId, first.BotUser(), created), first.BotUser(), ctx.sha, signature);
  }

  /** An updated comment is still the one found: once its body is replaced
      by the update, the next failing test on the same commit updates the
      same comment again. Needs the signature and sha to be free of line
      feeds. */
  lemma UpdatedCommentFoundAgain(ctx: Context, first: Inputs, next: Inputs, signature: string,
                                 issueNumber: int, comments: seq<Comment>)
    requires NL !in signature && NL !in ctx.sha
    requires Decide(ctx, first, signature, issueNumber, comments).Update?
    requires WillWrite(ctx, next) && next.BotUser() == first.BotUser()
    ensures var i := FirstMatch(comments, first.BotUser(), ctx.sha, signature).value;
      var updated := Decide(ctx, first, signature, issueNumber, comments).body;
      var after := comments[i := Comment(comments[i].id, comments[i].login, updated)];
      Decide(ctx, next, signature, issueNumber, after) == Update(comments[i].id, UpdatedBody(updated, next.TestId()))
  {
    var botUser := first.BotUser();
    var i := FirstMatch(comments, botUser, ctx.sha, signature).value;
    var c := comments[i];
    var updated := UpdatedBody(c.body, first.TestId());
    assert NL !in "sha: " + ctx.sha;
    UpdateKeepsMarkers(c.body, first.TestId(), signature, "sha: " + ctx.sha);
    FirstMatchReplace(comments, i, Comment(c.id, c.login, updated), botUser, ctx.sha, signature);
  }

  /** Replacing the first matching comment by another matching comment
      keeps it the first match. */
  lemma FirstMatchReplace(comments: seq<Comment>, i: nat, c: Comment, botUser: string, sha: string, signature: string)
    requires FirstMatch(comments, botUser, sha, signature) == Some(i)
    requires Matches(c, botUser, sha, signature)
    ensures FirstMatch(comments[i := c], botUser, sha, signature) == Some(i)
  {
    var after := comments[i := c];
    assert after[i] == c;
    forall j | 0 <= j < i ensures !Matches(after[j], botUser, sha, signature) {
      assert after[j] == comments[j];
    }
  }

  /** A whitespace-only outcome is not a missing input: `getInput` tests
      the raw value, trims it to the empty string afterwards, and the run
      writes nothing. */
  lemma BlankOutcomeSkips(ctx: Context, inputs: Inputs, signature: string, issueNumber: int, comments: seq<Comment>)
    requires ctx.eventName == "pull_request"
    requires inputs.repoToken != "" && inputs.testId != "" && inputs.botUser != ""
    requires |inputs.outcome| > 0 && forall i :: 0 <= i < |inputs.outcome| ==> IsJsWhitespace(inputs.outcome[i])
    ensures Decide(ctx, inputs, signature, issueNumber, comments) == Skip
  {
  }
}
