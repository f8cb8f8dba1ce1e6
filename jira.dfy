/** The issue-tracker records the core reads (internal/jira/jira_issue.go, jira_boards.go),
    cut down to the fields the modelled code touches. */
module Jira {
  import opened Wrappers

  type Str = seq<char>

  /** The "All" entry that pickers append and the builder treats as "no filter". */
  const MessageAll: Str := "All"
  /** The synthetic assignee that stands for "no assignee". */
  const MessageUnassigned: Str := "Unassigned"

  datatype Person = Person(accountId: Str, displayName: Str)

  datatype Status = Status(id: Str, name: Str)

  datatype Project = Project(id: Str, key: Str, name: Str)

  datatype Comment = Comment(author: Str, created: Str, body: Str)

  datatype Issue = Issue(
    id: Str,
    key: Str,
    summary: Str,
    status: Status,
    assignee: Person,
    reporter: Person,
    typeName: Str,
    project: Project,
    description: Str,
    labels: seq<Str>,
    comments: seq<Comment>)

  datatype User = User(accountId: Str, displayName: Str, name: Str, key: Str)

  datatype IssueStatus = IssueStatus(id: Str, name: Str)

  /** A workflow transition; `toStatusId`/`toName` are its target status. */
  datatype Transition = Transition(id: Str, name: Str, toStatusId: Str, toName: Str)

  /** One column of a board's column configuration: its name and member status ids. */
  datatype ColumnConfig = ColumnConfig(name: Str, statuses: seq<Str>)

  /** What one request for a page of board issues answers: the page and the reported total. */
  datatype Page = Page(issues: seq<Issue>, total: int)

  /** Go's read of a `map[K]int`: a missing key reads as the zero value. */
  function Get<K>(m: map<K, int>, k: K): (v: int)
    ensures k in m ==> v == m[k]
    ensures k !in m ==> v == 0
  {
    if k in m then m[k] else 0
  }
}
