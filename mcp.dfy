/** The MCP server's tools (cmd/fjira-cli/commands/mcp.go): validation of the tool arguments,
    the two handlers with the issue-tracker API as an oracle, and the Markdown the tools answer
    with. */
module Mcp {
  import opened Wrappers
  import opened Jira
  import Text

  // ---------------------------------------------------------------------------------------------
  // Tool arguments and results

  /** A decoded JSON argument: a string, a number, or anything else (boolean, object, null). */
  datatype Arg = StringArg(s: Str) | NumberArg(x: real) | OtherArg

  /** What a tool call answers: one text content, flagged when it reports an error. */
  datatype ToolResult = ToolResult(text: Str, isError: bool)

  /** One page of a JQL search: the issues and the total the server reports. */
  datatype SearchPage = SearchPage(issues: seq<Issue>, total: int)

  const IssueKeyArg: Str := "issue_key"
  const JqlArg: Str := "jql"
  const MaxResultsArg: Str := "max_results"
  const DefaultMaxResults := 10
  const MaxResultsLimit := 100

  /** The argument `name`, when it is present and a string. */
  function StringArgument(args: map<Str, Arg>, name: Str): (r: Option<Str>)
    ensures r.Some? <==> name in args && args[name].StringArg?
    ensures r.Some? ==> r.value == args[name].s
  {
    if name in args && args[name].StringArg? then Some(args[name].s) else None
  }

  /** Go's conversion of a float to an integer: the fraction is dropped, towards zero. */
  function TruncateTowardZero(x: real): (n: int)
    ensures x >= 0.0 ==> n as real <= x < n as real + 1.0
    ensures x < 0.0 ==> n as real - 1.0 < x <= n as real
  {
    if x >= 0.0 then x.Floor else -((-x).Floor)
  }

  /** The page size asked for: a numeric `max_results` whose whole part is within 1..100, and
      otherwise the default of 10. */
  function MaxResults(args: map<Str, Arg>): (n: int)
    ensures 1 <= n <= MaxResultsLimit
    ensures MaxResultsArg !in args || !args[MaxResultsArg].NumberArg? ==> n == DefaultMaxResults
    ensures MaxResultsArg in args && args[MaxResultsArg].NumberArg? ==>
              var asked := TruncateTowardZero(args[MaxResultsArg].x);
              n == if 1 <= asked <= MaxResultsLimit then asked else DefaultMaxResults
  {
    if MaxResultsArg in args && args[MaxResultsArg].NumberArg? then
      var asked := TruncateTowardZero(args[MaxResultsArg].x);
      if asked <= 0 || asked > MaxResultsLimit then DefaultMaxResults else asked
    else DefaultMaxResults
  }

  // ---------------------------------------------------------------------------------------------
  // Markdown

  predicate StartsWith(s: Str, p: Str)
  {
    |p| <= |s| && s[..|p|] == p
  }

  /** Writing more keeps what a string starts with. */
  lemma StartsWithAppend(s: Str, t: Str, p: Str)
    requires StartsWith(s, p)
    ensures StartsWith(s + t, p)
  {
    assert (s + t)[..|p|] == s[..|p|];
  }

  lemma StartsWithTransitive(s: Str, p: Str, q: Str)
    requires StartsWith(s, p) && StartsWith(p, q)
    ensures StartsWith(s, q)
  {
    assert s[..|q|] == p[..|q|];
  }

  /** A string builder holding `prefix` after `parts` are written to it, in order. */
  function WriteAll(prefix: Str, parts: seq<Str>): Str
  {
    if parts == [] then prefix else WriteAll(prefix, parts[..|parts| - 1]) + parts[|parts| - 1]
  }

  /** Writing keeps what the builder already held at its front. */
  lemma {:induction false} WriteAllKeepsPrefix(prefix: Str, parts: seq<Str>)
    ensures StartsWith(WriteAll(prefix, parts), prefix)
  {
    if parts != [] {
      WriteAllKeepsPrefix(prefix, parts[..|parts| - 1]);
      StartsWithAppend(WriteAll(prefix, parts[..|parts| - 1]), parts[|parts| - 1], prefix);
    }
  }

  /** Writing parts in one go is writing those before `k`, then the rest. */
  lemma {:induction false} WriteAllSplit(prefix: Str, parts: seq<Str>, k: nat)
    requires k <= |parts|
    ensures WriteAll(prefix, parts) == WriteAll(WriteAll(prefix, parts[..k]), parts[k..])
  {
    if k < |parts| {
      var init := parts[..|parts| - 1];
      WriteAllSplit(prefix, init, k);
      assert init[..k] == parts[..k];
      assert parts[k..][..|parts[k..]| - 1] == init[k..];
    } else {
      assert parts[..k] == parts;
    }
  }

  /** Each part appears whole in what was written, right after the parts before it. */
  lemma PartAt(prefix: Str, parts: seq<Str>, k: nat)
    requires k < |parts|
    ensures var at := |WriteAll(prefix, parts[..k])|;
            at + |parts[k]| <= |WriteAll(prefix, parts)| && WriteAll(prefix, parts)[at..at + |parts[k]|] == parts[k]
  {
    var before := WriteAll(prefix, parts[..k]);
    WriteAllSplit(prefix, parts, k + 1);
    assert parts[..k + 1][..k] == parts[..k];
    WriteAllKeepsPrefix(before + parts[k], parts[k + 1..]);
    var md := WriteAll(prefix, parts);
    assert md[..|before| + |parts[k]|] == before + parts[k];
    assert md[|before|..|before| + |parts[k]|] == (before + parts[k])[|before|..];
  }

  const Unassigned: Str := "Unassigned"

  /** How an assignee is shown: the display name, or "Unassigned" when it is empty. */
  function AssigneeShown(p: Person): (name: Str)
    ensures name != []
    ensures p.displayName != [] ==> name == p.displayName
  {
    if p.displayName != [] then p.displayName else Unassigned
  }

  // The pieces the answers are written from, one per formatted write.

  function IssueTitle(key: Str): Str { "# Issue: " + key + "\n\n" }
  function SummaryLine(summary: Str): Str { "**Summary:** " + summary + "\n\n" }
  function StatusLine(name: Str): Str { "**Status:** " + name + "\n" }
  function TypeLine(name: Str): Str { "**Type:** " + name + "\n" }
  function ReporterLine(name: Str): Str { "**Reporter:** " + name + "\n" }
  function AssigneeLine(name: Str): Str { "**Assignee:** " + name + "\n" }
  function ProjectLine(name: Str, key: Str): Str { "**Project:** " + name + " (" + key + ")\n\n" }
  function LabelsLine(labels: seq<Str>): Str { "**Labels:** " + Text.Join(labels, ", ") + "\n\n" }
  const DescriptionHeading: Str := "## Description\n\n"
  /** A block of text followed by an empty line. */
  function Paragraph(text: Str): Str { text + "\n\n" }
  /** The first line of comment number `k + 1`: its number, author and creation time. */
  function CommentHeading(k: nat, c: Comment): Str
  {
    "**Comment " + Text.NatToString(k + 1) + "** by " + c.author + " (" + c.created + "):\n"
  }
  const CommentsHeading: Str := "## Comments\n\n"
  const NoComments: Str := "No comments available.\n\n"

  const SearchTitle: Str := "# Search Results\n\n"
  function JqlLine(jql: Str): Str { "**JQL Query:** " + jql + "\n" }
  function ResultsLine(shown: nat, total: int): Str
  {
    "**Results:** Showing " + Text.NatToString(shown) + " of " + Text.IntToString(total) + " total issues\n\n"
  }
  function IssueKeyLine(key: Str, summary: Str): Str { "## " + key + " - " + summary + "\n" }
  function IssueFieldsLine(status: Str, assignee: Str, typeName: Str): Str
  {
    "**Status:** " + status + " | **Assignee:** " + assignee + " | **Type:** " + typeName + "\n\n"
  }
  const NoIssuesFound: Str := "No issues found matching the query.\n"

  /** The heading and the fields every issue answer starts with, in this order. */
  function IssueHeading(issue: Issue): Str
  {
    IssueTitle(issue.key) + SummaryLine(issue.summary) + StatusLine(issue.status.name)
    + TypeLine(issue.typeName) + ReporterLine(issue.reporter.displayName)
    + AssigneeLine(AssigneeShown(issue.assignee)) + ProjectLine(issue.project.name, issue.project.key)
  }

  /** The labels line, present only when the issue has labels. */
  function LabelsSection(labels: seq<Str>): (r: Str)
    ensures r == [] <==> labels == []
  {
    if labels == [] then [] else LabelsLine(labels)
  }

  /** The description section, present only when the description is not empty (written in two
      pieces by the source, here as one). */
  function DescriptionSection(description: Str): (r: Str)
    ensures r == [] <==> description == []
  {
    if description == [] then [] else DescriptionHeading + Paragraph(description)
  }

  /** Comment number `k + 1` (written in two pieces by the source, here as one). */
  function CommentBlock(k: nat, c: Comment): Str
  {
    CommentHeading(k, c) + Paragraph(c.body)
  }

  /** The comment blocks, numbered from 1 in the order of the comments. */
  function CommentBlocks(comments: seq<Comment>): (r: seq<Str>)
    ensures |r| == |comments|
    ensures forall k :: 0 <= k < |comments| ==> r[k] == CommentBlock(k, comments[k])
  {
    seq(|comments|, k requires 0 <= k < |comments| => CommentBlock(k, comments[k]))
  }

  /** Everything an issue answer shows before its comments. */
  function BeforeComments(issue: Issue): Str
  {
    IssueHeading(issue) + LabelsSection(issue.labels) + DescriptionSection(issue.description)
    + CommentsHeading
  }

  /** formatIssueWithComments: the comment blocks, or a note that there are none. */
  function IssueMarkdown(issue: Issue): Str
  {
    if issue.comments == [] then BeforeComments(issue) + NoComments
    else WriteAll(BeforeComments(issue), CommentBlocks(issue.comments))
  }

  /** One issue of a search answer: its key and summary, then status, assignee and type (written
      in two pieces by the source, here as one). */
  function IssueSummary(issue: Issue): Str
  {
    IssueKeyLine(issue.key, issue.summary)
    + IssueFieldsLine(issue.status.name, AssigneeShown(issue.assignee), issue.typeName)
  }

  function IssueSummaries(issues: seq<Issue>): (r: seq<Str>)
    ensures |r| == |issues|
    ensures forall k :: 0 <= k < |issues| ==> r[k] == IssueSummary(issues[k])
  {
    seq(|issues|, k requires 0 <= k < |issues| => IssueSummary(issues[k]))
  }

  /** The heading of a search answer: the query and how many of how many issues are shown. */
  function SearchHeading(shown: nat, total: int, jql: Str): Str
  {
    SearchTitle + JqlLine(jql) + ResultsLine(shown, total)
  }

  /** formatSearchResults. */
  function SearchMarkdown(issues: seq<Issue>, total: int, jql: Str): Str
  {
    SearchBody(SearchHeading(|issues|, total, jql), issues)
  }

  /** What follows the heading: the notice that nothing was found, or one summary per issue. */
  function SearchBody(top: Str, issues: seq<Issue>): Str
  {
    if issues == [] then top + NoIssuesFound
    else WriteAll(top, IssueSummaries(issues))
  }

  // ---------------------------------------------------------------------------------------------
  // Properties of the Markdown

  /** An issue answer opens with its title and its fields, in order; the labels and description
      sections follow only when there is something to show, and then the comments. */
  lemma IssueMarkdownLayout(issue: Issue)
    ensures StartsWith(IssueMarkdown(issue), IssueHeading(issue))
    ensures StartsWith(IssueHeading(issue), IssueTitle(issue.key))
    ensures issue.labels == [] && issue.description == [] ==>
              BeforeComments(issue) == IssueHeading(issue) + CommentsHeading
  {
    var top := IssueHeading(issue);
    var withLabels := top + LabelsSection(issue.labels);
    var withDescription := withLabels + DescriptionSection(issue.description);
    StartsWithAppend(top, LabelsSection(issue.labels), top);
    StartsWithAppend(withLabels, DescriptionSection(issue.description), top);
    StartsWithAppend(withDescription, CommentsHeading, top);
    if issue.comments == [] {
      StartsWithAppend(BeforeComments(issue), NoComments, top);
    } else {
      WriteAllKeepsPrefix(BeforeComments(issue), CommentBlocks(issue.comments));
      StartsWithTransitive(IssueMarkdown(issue), BeforeComments(issue), top);
    }
    var title := IssueTitle(issue.key);
    StartsWithAppend(title, SummaryLine(issue.summary), title);
  }

  /** With no comments the answer ends with "No comments available."; otherwise comment number
      k + 1 is shown whole, right after the comments before it. */
  lemma IssueMarkdownComments(issue: Issue, k: nat)
    ensures issue.comments == [] ==> IssueMarkdown(issue) == BeforeComments(issue) + NoComments
    ensures k < |issue.comments| ==>
              var md := IssueMarkdown(issue);
              var block := CommentBlock(k, issue.comments[k]);
              var at := |WriteAll(BeforeComments(issue), CommentBlocks(issue.comments)[..k])|;
              at + |block| <= |md| && md[at..at + |block|] == block
  {
    if k < |issue.comments| {
      PartAt(BeforeComments(issue), CommentBlocks(issue.comments), k);
    }
  }

  /** A search answer always opens with the query and how many issues it shows of how many; with
      none it then says that nothing was found. */
  lemma SearchMarkdownLayout(issues: seq<Issue>, total: int, jql: Str)
    ensures StartsWith(SearchMarkdown(issues, total, jql), SearchHeading(|issues|, total, jql))
    ensures issues == [] ==> SearchMarkdown(issues, total, jql) == SearchHeading(0, total, jql) + NoIssuesFound
  {
    var top := SearchHeading(|issues|, total, jql);
    if issues == [] {
      StartsWithAppend(top, NoIssuesFound, top);
    } else {
      WriteAllKeepsPrefix(top, IssueSummaries(issues));
    }
  }

  /** Each issue found is shown whole (its summary is `IssueSummaries(issues)[k]`), in order,
      after the heading `top` and the issues before it; SearchMarkdown is SearchBody over its
      heading. */
  lemma SearchBodyShowsEachIssue(top: Str, issues: seq<Issue>, k: nat)
    requires k < |issues|
    ensures var body := SearchBody(top, issues);
            var part := IssueSummaries(issues)[k];
            var at := |WriteAll(top, IssueSummaries(issues)[..k])|;
            at + |part| <= |body| && body[at..at + |part|] == part
  {
    PartAt(top, IssueSummaries(issues), k);
  }

  // ---------------------------------------------------------------------------------------------
  // Building the Markdown

  /** formatIssueWithComments: the heading and fields, the optional sections, then the comments
      one by one. */
  method FormatIssueWithComments(issue: Issue) returns (result: Str)
    ensures result == IssueMarkdown(issue)
  {
    result := IssueTitle(issue.key);
    result := result + SummaryLine(issue.summary);
    result := result + StatusLine(issue.status.name);
    result := result + TypeLine(issue.typeName);
    result := result + ReporterLine(issue.reporter.displayName);
    if issue.assignee.displayName != [] {
      result := result + AssigneeLine(issue.assignee.displayName);
    } else {
      result := result + AssigneeLine(Unassigned);
    }
    result := result + ProjectLine(issue.project.name, issue.project.key);
    assert result == IssueHeading(issue);
    if |issue.labels| > 0 {
      result := result + LabelsLine(issue.labels);
    }
    assert result == IssueHeading(issue) + LabelsSection(issue.labels);
    if issue.description != [] {
      result := result + DescriptionSection(issue.description);
    }
    assert result == IssueHeading(issue) + LabelsSection(issue.labels) + DescriptionSection(issue.description);
    result := result + CommentsHeading;
    if |issue.comments| > 0 {
      result := AppendComments(result, issue.comments);
    } else {
      result := result + NoComments;
    }
  }

  /** The loop over the comments of formatIssueWithComments. */
  method AppendComments(prefix: Str, comments: seq<Comment>) returns (result: Str)
    ensures result == WriteAll(prefix, CommentBlocks(comments))
  {
    result := prefix;
    var i := 0;
    while i < |comments|
      invariant 0 <= i <= |comments|
      invariant result == WriteAll(prefix, CommentBlocks(comments)[..i])
    {
      var blocks := CommentBlocks(comments);
      assert blocks[..i + 1][..i] == blocks[..i];
      result := result + CommentBlock(i, comments[i]);
      i := i + 1;
    }
    assert CommentBlocks(comments)[..i] == CommentBlocks(comments);
  }

  /** formatSearchResults. */
  method FormatSearchResults(issues: seq<Issue>, total: int, jql: Str) returns (result: Str)
    ensures result == SearchMarkdown(issues, total, jql)
  {
    result := SearchTitle;
    result := result + JqlLine(jql);
    result := result + ResultsLine(|issues|, total);
    if |issues| == 0 {
      result := result + NoIssuesFound;
      return;
    }
    ghost var top := result;
    var i := 0;
    while i < |issues|
      invariant 0 <= i <= |issues|
      invariant result == WriteAll(top, IssueSummaries(issues)[..i])
    {
      var summaries := IssueSummaries(issues);
      assert summaries[..i + 1][..i] == summaries[..i];
      result := result + IssueSummary(issues[i]);
      i := i + 1;
    }
    assert IssueSummaries(issues)[..i] == IssueSummaries(issues);
  }

  // ---------------------------------------------------------------------------------------------
  // The tools

  function ErrorResult(message: Str): ToolResult
  {
    ToolResult(message, true)
  }

  /** getIssueHandler: the key must be a string that is not blank; the issue is then fetched by
      its trimmed key and answered as Markdown, or the failure is reported. */
  function GetIssueHandler(args: map<Str, Arg>, getIssue: Str -> Result<Issue, Str>): (r: ToolResult)
    ensures StringArgument(args, IssueKeyArg).None? ==> r == ErrorResult("Error: issue_key must be a string")
    ensures StringArgument(args, IssueKeyArg).Some? && Text.TrimSpace(args[IssueKeyArg].s) == [] ==>
              r == ErrorResult("Error: issue_key cannot be empty")
    ensures !r.isError <==>
              StringArgument(args, IssueKeyArg).Some? && Text.TrimSpace(args[IssueKeyArg].s) != [] &&
              getIssue(Text.TrimSpace(args[IssueKeyArg].s)).Ok?
    ensures !r.isError ==> r.text == IssueMarkdown(getIssue(Text.TrimSpace(args[IssueKeyArg].s)).value)
  {
    match StringArgument(args, IssueKeyArg)
    case None => ErrorResult("Error: issue_key must be a string")
    case Some(raw) =>
      var issueKey := Text.TrimSpace(raw);
      if issueKey == [] then ErrorResult("Error: issue_key cannot be empty")
      else
        match getIssue(issueKey)
        case Err(e) => ErrorResult("Failed to fetch issue " + issueKey + ": " + e)
        case Ok(issue) => ToolResult(IssueMarkdown(issue), false)
  }

  /** searchIssuesHandler: the query must be a string that is not blank; the first page of at
      most MaxResults issues is then searched for with the trimmed query and answered as
      Markdown, or the failure is reported. */
  function SearchIssuesHandler(args: map<Str, Arg>, search: (Str, int, int) -> Result<SearchPage, Str>): (r: ToolResult)
    ensures StringArgument(args, JqlArg).None? ==> r == ErrorResult("Error: jql must be a string")
    ensures StringArgument(args, JqlArg).Some? && Text.TrimSpace(args[JqlArg].s) == [] ==>
              r == ErrorResult("Error: jql query cannot be empty")
    ensures !r.isError <==>
              StringArgument(args, JqlArg).Some? && Text.TrimSpace(args[JqlArg].s) != [] &&
              search(Text.TrimSpace(args[JqlArg].s), 0, MaxResults(args)).Ok?
    ensures !r.isError ==>
              var jql := Text.TrimSpace(args[JqlArg].s);
              var page := search(jql, 0, MaxResults(args)).value;
              r.text == SearchMarkdown(page.issues, page.total, jql)
  {
    match StringArgument(args, JqlArg)
    case None => ErrorResult("Error: jql must be a string")
    case Some(raw) =>
      var jql := Text.TrimSpace(raw);
      if jql == [] then ErrorResult("Error: jql query cannot be empty")
      else
        match search(jql, 0, MaxResults(args))
        case Err(e) => ErrorResult("Failed to search issues: " + e)
        case Ok(page) => ToolResult(SearchMarkdown(page.issues, page.total, jql), false)
  }

  /** A key that is not a string, or is blank, is answered without asking the API: any two APIs
      give the same answer. Otherwise only the API's answer for the trimmed key matters. */
  lemma GetIssueAsksOnlyForTrimmedKey(args: map<Str, Arg>, api1: Str -> Result<Issue, Str>, api2: Str -> Result<Issue, Str>)
    requires StringArgument(args, IssueKeyArg).Some? && Text.TrimSpace(args[IssueKeyArg].s) != [] ==>
               api1(Text.TrimSpace(args[IssueKeyArg].s)) == api2(Text.TrimSpace(args[IssueKeyArg].s))
    ensures GetIssueHandler(args, api1) == GetIssueHandler(args, api2)
  {
  }

  /** A query that is not a string, or is blank, is answered without searching; otherwise only
      the search for the trimmed query's first page, of 1 to 100 issues, matters. */
  lemma SearchAsksOnlyForFirstPage(args: map<Str, Arg>, api1: (Str, int, int) -> Result<SearchPage, Str>,
                                   api2: (Str, int, int) -> Result<SearchPage, Str>)
    requires StringArgument(args, JqlArg).Some? && Text.TrimSpace(args[JqlArg].s) != [] ==>
               api1(Text.TrimSpace(args[JqlArg].s), 0, MaxResults(args)) ==
               api2(Text.TrimSpace(args[JqlArg].s), 0, MaxResults(args))
    ensures SearchIssuesHandler(args, api1) == SearchIssuesHandler(args, api2)
    ensures 1 <= MaxResults(args) <= MaxResultsLimit
  {
  }
}
