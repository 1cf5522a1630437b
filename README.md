# continue-on-error-comment, modelled in Dafny

This is a model of the decision logic of the `continue-on-error-comment` GitHub
Action (`index.js`). On a `pull_request` event whose test `outcome` is
`"failure"`, the action looks for its own comment on the pull request. That
comment is written by the bot account, ends with the signature and holds
`sha: <commit>`. If the comment exists, the action splices a `- <test id>` line
into its body, three lines before the end. If it does not, the action creates a
comment from a fixed template.

Modules:

- `Text` (`text.dfy`): JavaScript's `split("\n")`, `join("\n")`, `endsWith`,
  `includes` and `trim`, with their round-trip and locality lemmas.
- `JsArray` (`jsarray.dfy`): `Array.prototype.splice(start, 0, item)`, with
  ECMAScript's clamping of the `start` argument.
- `CommentBody` (`comment_body.dfy`): the update path (split, splice at
  `length - 3`, join) and the create template, with what each preserves.
- `ContinueOnError` (`action.dfy`): one run as a pure function `Decide` that
  returns an `Action`: `Ignore`, `Fail`, `Skip`, `Update(commentId, body)` or
  `Create(issueNumber, body)`. It also holds the locator (`FirstMatch`) and the
  lemmas that relate later runs to earlier ones.

The REST calls are replaced by parameters and by the returned action:
`getPullRequest` supplies `issueNumber`, `listComments` supplies `comments`, and
`updateComment` and `createComment` become the `Update` and `Create` actions.
The signature is a parameter because its value lives in `lib/constants.js`,
which is not part of this model. Wherever a property needs it, the signature,
the sha and the test id are assumed to hold no line feed.

The create template is copied literally, including the indentation that the
template literal keeps from its source lines. The resulting lines are
`"Passing failures: "` (with a trailing space), four spaces, `"  - <id>"`, an
empty line, `"  <!-- sha: <sha> -->"` and `"  <signature>"`. The created lines
are indented; lines added later by the update path (index.js:39) are not: they
are `"- <id>"`, exactly as the code writes them.

The step inputs are held raw, as the runner supplies them. `getInput` with
`required: true` fails on an empty raw value and otherwise returns the value
trimmed of JavaScript whitespace, so `Inputs.Outcome`, `Inputs.TestId` and
`Inputs.BotUser` are the trimmed values the run compares and writes.

## Model

| member | source | states |
|---|---|---|
| `ContinueOnError.Decide` | index.js:8-60 | The result is `Ignore` exactly when the event is not `pull_request`. It is `Fail` exactly when a required input is empty. It is `Skip` exactly when the trimmed outcome is not `"failure"`. An `Update` targets the first matching comment, with that comment's body spliced. The result is `Create` exactly when no comment matches, and then carries the template body for the pull request. |
| `ContinueOnError.MissingInput` | index.js:14-17 | No input is reported missing exactly when all four raw inputs are non-empty. A reported name is one of the four input names, and it is the first input, in reading order, whose raw value is empty. |
| `ContinueOnError.BlankOutcomeSkips` | index.js:15-19 | A whitespace-only outcome is not a missing input: it trims to the empty string, which is not `"failure"`, so the run writes nothing. |
| `ContinueOnError.Inputs.Outcome` | index.js:15 | The value `getInput("outcome", { required: true })` returns: the raw input trimmed. A definition; `TrimSlice`, `TrimEnds` and `TrimEmpty` state what trimming keeps, and `BlankOutcomeSkips` what a blank outcome leads to. |
| `ContinueOnError.Inputs.TestId` | index.js:16 | The value `getInput("test-id", { required: true })` returns: the raw input trimmed. A definition; the `Update…` and `Created…` lemmas take it as the test id written. |
| `ContinueOnError.Inputs.BotUser` | index.js:17 | The value `getInput("bot-user", { required: true })` returns: the raw input trimmed. A definition; `FirstMatch` compares logins against it. |
| `ContinueOnError.WillWrite` | index.js:8-19 | The combined guard in front of any write: a `pull_request` event, no empty required input, and a trimmed outcome of `"failure"`. A definition; `Decide` states that `Update` and `Create` happen only when it holds. |
| `ContinueOnError.Matches` | index.js:30-33 | The `find` predicate as a conjunction: author login equals the bot user, body ends with the signature, body includes `sha: <sha>`. A definition; `FirstMatch` states what it selects. |
| `ContinueOnError.FirstMatch` | index.js:29-34 | A returned index is in range, and that comment satisfies all three conditions (author, signature suffix, `sha: <sha>`). No earlier comment satisfies them. None is returned exactly when no comment satisfies them. |
| `ContinueOnError.FirstMatchAppendAfter` | index.js:29-34 | The first match in list order wins: comments added after it do not change which comment is picked. |
| `ContinueOnError.FirstMatchAppendOnly` | index.js:29-34 | If nothing matched before, a matching comment appended at the end is the one found. |
| `ContinueOnError.CreatedCommentFoundAgain` | index.js:29-59 | After a `Create`, a later failing run on the same commit, with the created comment now in the list, updates that comment instead of creating a second one. It assumes the created comment's author, the account behind `repo-token`, is `bot-user`; the action does not check this. |
| `ContinueOnError.UpdatedCommentFoundAgain` | index.js:29-46 | After an `Update`, a later failing run on the same commit updates the same comment again. This holds when the signature and sha are free of line feeds. |
| `Text.Split` | index.js:37 | A split always yields at least one line, and no line holds a line feed. |
| `Text.Join` | index.js:45 | `join("\n")`: the lines with one line feed between neighbours; an empty list joins to the empty string. A definition; `JoinSplit` and `SplitJoin` state its relation to `Split`. |
| `Text.EndsWith` | index.js:32 | `endsWith`: the string closes with the suffix, character for character. A definition; `UpdateKeepsMarkers` and `CreatedBodyMarkers` state when it holds. |
| `Text.Includes` | index.js:33 | `includes`: the text occurs at some position. A definition; `UpdateKeepsMarkers` and `CreatedBodyMarkers` state when it holds. |
| `Text.Trim` | index.js:14-17 | `trim`, which `getInput` applies to each input value: the input without its leading and trailing whitespace. A definition; `TrimSlice`, `TrimEnds` and `TrimEmpty` state its properties. |
| `Text.LeadingWhitespace` | index.js:14-17 | The count of leading characters `trim` removes: all of them are JavaScript whitespace, and the character after them, if any, is not. |
| `Text.TrailingWhitespace` | index.js:14-17 | The count of trailing characters `trim` removes: all of them are JavaScript whitespace, and the character before them, if any, is not. |
| `Text.TrimSlice` | index.js:14-17 | `trim` (applied by `getInput`) returns a contiguous slice of its input, and everything it cuts off on either side is whitespace. |
| `Text.TrimEnds` | index.js:14-17 | A trimmed value neither starts nor ends with whitespace. |
| `Text.TrimEmpty` | index.js:14-17 | A value trims to the empty string exactly when every character of it is whitespace. |
| `Text.JoinSplit` | index.js:37-45 | `Join(Split(s)) == s` for every string. |
| `Text.SplitJoin` | index.js:37-45 | Splitting the join of a non-empty, newline-free line list gives the list back. |
| `Text.SplitUnique` | index.js:37-45 | `Split(s)` is the only non-empty, newline-free line list whose join is `s`. |
| `JsArray.ActualStart` | index.js:39 | ECMAScript's splice start: a negative start counts back from the length and is clamped at 0. A start past the end is clamped to the length. The result never exceeds the length. |
| `JsArray.SpliceInsert` | index.js:39 | The array gains exactly one element. The item sits at the actual start. The elements before it are unchanged, and the elements after it are the old elements from the start onwards. |
| `JsArray.RemoveInserted` | index.js:39 | Removing the inserted item gives the original array back. |
| `JsArray.SpliceInsertUnique` | index.js:39 | Any array that holds the item at the actual start and gives back the original when the item is removed is the splice's result. |
| `CommentBody.Item` | index.js:39 | The line `` `- ${testId}` `` the update path adds. A definition; `UpdateLongBody`, `UpdateShortBody` and `UpdateAfterCreate` state where it lands. |
| `CommentBody.InsertionIndex` | index.js:39 | The index `splice(body.length - 3, …)` starts at for a body of `n` lines. A definition; `InsertionIndexRule` states its values. |
| `CommentBody.UpdatedBody` | index.js:37-45 | The body sent by `updateComment`: split, splice `- <id>` in at `length - 3`, join. A definition; the `Update…` lemmas below state what it preserves. |
| `CommentBody.CreateBody` | index.js:48-53 | The body sent by `createComment`, the template copied literally with its indentation. A definition; `CreatedBodyMarkers` and `CreatedBodyLines` state its properties. |
| `CommentBody.InsertionIndexRule` | index.js:39 | For at least 3 lines the new line goes at `n - 3`. For fewer lines it goes at `max(2n - 3, 0)`. It is always before the last line. |
| `CommentBody.UpdateLines` | index.js:37-45 | The updated body, split again, is exactly the spliced line list. |
| `CommentBody.UpdateLongBody` | index.js:37-39 | For a body of at least 3 lines, the result has one more line and `- <id>` is at `n - 3`. Earlier lines are unchanged, and the last three lines follow the new line unchanged. |
| `CommentBody.UpdateShortBody` | index.js:37-39 | With no shape check, a one-line body gets the item in front. A two-line body gets it between its two lines. |
| `CommentBody.UpdateLosesNothing` | index.js:37-45 | Removing the inserted line from the updated lines and joining them gives back the original body. |
| `CommentBody.UpdatedBodyText` | index.js:37-45 | As text, the update puts `"- <id>\n"` in front of a body of one or three lines (splice start 0), and otherwise puts `"\n- <id>"` in front of a line feed of the old body. The rest of the body is untouched. |
| `CommentBody.UpdateKeepsMarkers` | index.js:29-45 | A body that ends with the signature and holds a newline-free marker still does both after an update. |
| `CommentBody.CreatedBodyMarkers` | index.js:48-53 | A created body ends with the signature and holds `sha: <sha>`, so the locator's text conditions hold for it. |
| `CommentBody.CreatedBodyLines` | index.js:48-53 | For newline-free values, a created body splits into exactly the six template lines. The single test id line is the third. |
| `CommentBody.UpdateAfterCreate` | index.js:37-53 | Updating a freshly created body puts the new `- <id>` line directly after the seeded `  - <id>` line. The other five lines are unchanged. |

## Left out

- Console logging and `setFailed` (index.js:9-11, 63) are reduced to the `Ignore` and `Fail` actions. The message text of the log line is not modelled.
- `getInput` (it lives in `@actions/core`) is modelled as an emptiness test on the raw value followed by `trim`; reading the value from the environment is not modelled. `Fail` carries the name of the first empty input.
- Errors thrown by `getOctokit`, `getPullRequest`, `listComments`, `updateComment` and `createComment` are network I/O. The model assumes these calls succeed. The catch-all at index.js:62-64 is modelled only for missing inputs.
- `lib/get-pull-request.js` and `lib/constants.js` are not part of this model. The pull request number and the signature are parameters.
- A comment whose `user` or `body` is null would throw in the `find` predicate. Comments here always have a login and a body.
- Pagination of `listComments` and races between concurrent runs are not implemented by the action, so the model does not capture them.
- Strings are sequences of Unicode scalar values, while JavaScript strings are sequences of UTF-16 code units. `split`, `join` and `trim` give the same results on well-formed text, since the characters they look for are single code units. `endsWith` and `includes`, which look for arbitrary text (the signature and `sha: <sha>`), give the same results on well-formed text because UTF-16 is self-synchronising: a high surrogate never equals a low one, so a match can neither start nor end inside a surrogate pair. Lengths differ for characters outside the Basic Multilingual Plane, and lone surrogates, which JavaScript strings can hold, are not modelled.
- The update path builds the spliced line list as a new sequence. JavaScript shifts the array in place, but the array is local to the call, so no aliasing is lost.
