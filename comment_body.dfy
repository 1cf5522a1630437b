/** The two ways the action writes a comment body (index.js:36-53): the
    update path splits the located comment's body into lines, splices a
    `- <test id>` line in three lines before the end and joins the lines
    again; the create path fills in a fixed template. */
module CommentBody {
  import opened Text
  import opened JsArray

  /** The line the update path adds for a test identifier. */
  function Item(testId: string): string
  {
    "- " + testId
  }

  /** Where `body.splice(body.length - 3, 0, …)` puts the new line in a
      body of `n` lines. */
  function InsertionIndex(n: nat): nat
  {
    ActualStart(n, n - 3)
  }

  /** The body sent by `updateComment`: split on line feeds, splice the
      item in at `length - 3`, join with line feeds. */
  function UpdatedBody(body: string, testId: string): string
  {
    var lines := Split(body);
    Join(SpliceInsert(lines, |lines| - 3, Item(testId)))
  }

  /** The body sent by `createComment`. The template literal keeps the
      indentation of the source lines it spans, so the second line is four
      spaces and the last three lines start with two. */
  function CreateBody(testId: string, sha: string, signature: string): string
  {
    "Passing failures: " + "\n" +
    "    " + "\n" +
    "  - " + testId + "\n" +
    "" + "\n" +
    "  <!-- sha: " + sha + " -->" + "\n" +
    "  " + signature
  }

  /** The lines of a freshly created body, when none of the filled-in values
      holds a line feed. */
  function CreatedLines(testId: string, sha: string, signature: string): seq<string>
  {
    ["Passing failures: ", "    ", "  - " + testId, "", "  <!-- sha: " + sha + " -->", "  " + signature]
  }

  /** The insertion point is three lines before the end for a body of at
      least three lines; for shorter bodies the negative start wraps round
      once, to `2n - 3`, and is clamped at 0. It is always an existing line,
      so the last line is never displaced. */
  lemma InsertionIndexRule(n: nat)
    requires n >= 1
    ensures n >= 3 ==> InsertionIndex(n) == n - 3
    ensures n < 3 ==> InsertionIndex(n) == (if 2 * n - 3 < 0 then 0 else 2 * n - 3)
    ensures InsertionIndex(n) < n
  {
  }

  /** Re-splitting the updated body gives the spliced line list: the text
      sent to the platform holds exactly the lines `splice` produced. */
  lemma UpdateLines(body: string, testId: string)
    requires NL !in testId
    ensures Split(UpdatedBody(body, testId)) == SpliceInsert(Split(body), |Split(body)| - 3, Item(testId))
  {
    var lines := Split(body);
    var spliced := SpliceInsert(lines, |lines| - 3, Item(testId));
    var k := ActualStart(|lines|, |lines| - 3);
    assert NL !in Item(testId);
    forall i | 0 <= i < |spliced| ensures NL !in spliced[i] {
      if i < k {
        assert spliced[i] == lines[i];
      } else if i > k {
        assert spliced[i] == spliced[k + 1..][i - k - 1] == lines[i - 1];
      }
    }
    SplitJoin(spliced);
  }

  /** On a body of at least three lines the update adds exactly one line,
      the item, at `n - 3`; every earlier line keeps its place and the last
      three lines follow the item unchanged. */
  lemma UpdateLongBody(body: string, testId: string)
    requires NL !in testId
    requires |Split(body)| >= 3
    ensures var before := Split(body);
      var after := Split(UpdatedBody(body, testId));
      var n := |before|;
      |after| == n + 1 &&
      after[n - 3] == Item(testId) &&
      after[..n - 3] == before[..n - 3] &&
      after[n - 2..] == before[n - 3..]
  {
    UpdateLines(body, testId);
  }

  /** On a body of one line the item goes before it; on a body of two lines
      it goes between them. Nothing checks the body's shape first. */
  lemma UpdateShortBody(body: string, testId: string)
    requires NL !in testId
    requires |Split(body)| < 3
    ensures var before := Split(body);
      var after := Split(UpdatedBody(body, testId));
      (|before| == 1 ==> after == [Item(testId), before[0]]) &&
      (|before| == 2 ==> after == [before[0], Item(testId), before[1]])
  {
    UpdateLines(body, testId);
    var before := Split(body);
    var after := Split(UpdatedBody(body, testId));
    if |before| == 1 {
      assert after == [after[0]] + after[1..];
    } else {
      assert after == after[..1] + [after[1]] + after[2..];
    }
  }

  /** Taking the inserted line out of the updated body's lines and joining
      them again gives the original body: no prior content is lost or
      reordered. */
  lemma UpdateLosesNothing(body: string, testId: string)
    requires NL !in testId
    ensures var after := Split(UpdatedBody(body, testId));
      var k := InsertionIndex(|Split(body)|);
      k < |after| && Join(RemoveAt(after, k)) == body
  {
    var lines := Split(body);
    UpdateLines(body, testId);
    RemoveInserted(lines, |lines| - 3, Item(testId));
    JoinSplit(body);
  }

  /** As text, the update puts a line feed and the item just before a line
      feed of the original body (or, for a body of one or three lines, where
      the splice starts at 0, puts the item and a line feed in front of it);
      everything else is the body as it was. */
  lemma UpdatedBodyText(body: string, testId: string)
    ensures InsertionIndex(|Split(body)|) == 0 ==>
      UpdatedBody(body, testId) == Item(testId) + [NL] + body
    ensures InsertionIndex(|Split(body)|) > 0 ==>
      exists cut :: 0 <= cut < |body| && body[cut] == NL &&
        UpdatedBody(body, testId) == body[..cut] + ([NL] + Item(testId)) + body[cut..]
  {
    var lines := Split(body);
    var k := InsertionIndex(|lines|);
    var x := Item(testId);
    assert UpdatedBody(body, testId) == Join(lines[..k] + [x] + lines[k..]);
    InsertionIndexRule(|lines|);
    JoinSplit(body);
    if k == 0 {
      assert lines[..k] + [x] + lines[k..] == [x] + lines;
      JoinAppend([x], lines);
    } else {
      JoinInserted(lines, k, x);
    }
  }

  /** Joining lines with one more line put in at `k` puts a line feed and
      that line in front of the line feed that followed line `k - 1`. */
  lemma JoinInserted(lines: seq<string>, k: nat, x: string)
    requires 1 <= k < |lines|
    ensures var body := Join(lines);
      var cut := |Join(lines[..k])|;
      cut < |body| && body[cut] == NL &&
      Join(lines[..k] + [x] + lines[k..]) == body[..cut] + ([NL] + x) + body[cut..]
  {
    var head := Join(lines[..k]);
    var tail := [NL] + Join(lines[k..]);
    JoinCut(lines, k);
    JoinAppend(lines[..k] + [x], lines[k..]);
    JoinAppend(lines[..k], [x]);
    var body := Join(lines);
    assert body == head + tail;
    assert body[..|head|] == head;
    assert body[|head|..] == tail;
  }

  /** An update keeps what the locator looks for: a body that ends with the
      signature and holds the marker still does both afterwards, provided
      neither holds a line feed. */
  lemma UpdateKeepsMarkers(body: string, testId: string, signature: string, marker: string)
    requires NL !in signature && NL !in marker
    requires EndsWith(body, signature) && Includes(body, marker)
    ensures EndsWith(UpdatedBody(body, testId), signature)
    ensures Includes(UpdatedBody(body, testId), marker)
  {
    var x := Item(testId);
    UpdatedBodyText(body, testId);
    if InsertionIndex(|Split(body)|) == 0 {
      EndsWithAppend(x + [NL], body, signature);
      IncludesAppend(x + [NL], body, marker);
      assert x + [NL] + body == (x + [NL]) + body;
    } else {
      var cut :| 0 <= cut < |body| && body[cut] == NL &&
        UpdatedBody(body, testId) == body[..cut] + ([NL] + x) + body[cut..];
      assert body == body[..cut] + body[cut..];
      EndsWithAcrossNewline(body[..cut], body[cut..], signature);
      EndsWithAppend(body[..cut] + ([NL] + x), body[cut..], signature);
      IncludesInsert(body[..cut], [NL] + x, body[cut..], marker);
    }
  }

  /** A created body ends with the signature and holds `sha: <sha>`, so the
      locator finds it again for the same commit. */
  lemma CreatedBodyMarkers(testId: string, sha: string, signature: string)
    ensures EndsWith(CreateBody(testId, sha, signature), signature)
    ensures Includes(CreateBody(testId, sha, signature), "sha: " + sha)
  {
    var body := CreateBody(testId, sha, signature);
    var front := "Passing failures: \n    \n  - " + testId + "\n\n  <!-- ";
    assert body == front + ("sha: " + sha) + " -->\n  " + signature;
    assert body[|body| - |signature|..] == signature;
    assert body[|front|..|front| + |"sha: " + sha|] == "sha: " + sha;
    assert OccursAt(body, "sha: " + sha, |front|);
  }

  /** For newline-free values a created body has six lines, the third of
      them the only test identifier line it is seeded with. */
  lemma CreatedBodyLines(testId: string, sha: string, signature: string)
    requires NL !in testId && NL !in sha && NL !in signature
    ensures Split(CreateBody(testId, sha, signature)) == CreatedLines(testId, sha, signature)
  {
    var lines := CreatedLines(testId, sha, signature);
    var t5 := lines[5];
    var t4 := lines[4] + [NL] + t5;
    var t3 := lines[3] + [NL] + t4;
    var t2 := lines[2] + [NL] + t3;
    var t1 := lines[1] + [NL] + t2;
    var t0 := lines[0] + [NL] + t1;
    assert Join(lines[5..]) == t5;
    assert Join(lines[4..]) == t4;
    assert Join(lines[3..]) == t3;
    assert Join(lines[2..]) == t2;
    assert Join(lines[1..]) == t1;
    assert Join(lines) == t0;
    assert t0 == CreateBody(testId, sha, signature);
    assert NL !in lines[2] && NL !in lines[4] && NL !in lines[5];
    SplitJoin(lines);
  }

  /** A second failing test on a freshly created comment lands directly
      after the seeded test identifier line. */
  lemma UpdateAfterCreate(first: string, second: string, sha: string, signature: string)
    requires NL !in first && NL !in second && NL !in sha && NL !in signature
    ensures Split(UpdatedBody(CreateBody(first, sha, signature), second)) ==
      ["Passing failures: ", "    ", "  - " + first, "- " + second, "", "  <!-- sha: " + sha + " -->", "  " + signature]
  {
    var body := CreateBody(first, sha, signature);
    CreatedBodyLines(first, sha, signature);
    UpdateLines(body, second);
  }
}
