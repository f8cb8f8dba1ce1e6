/** BuildSearchIssuesJql (internal/issues/jql_builder.go): the JQL text the issue search sends. */
module JqlBuilder {
  import opened Wrappers
  import opened Text
  import opened Jira
  import opened IssuePatterns

  /** The characters `strings.TrimLeft(jql, " AND")` strips: a cutset, not a prefix. */
  const AndCutset: set<char> := {' ', 'A', 'N', 'D'}

  function ProjectClause(project: Option<Project>): Str
  {
    if project.Some? && project.value.id != MessageAll then "project=" + project.value.id else ""
  }

  function SummaryClause(query: Str): Str
  {
    if query != "" then " AND summary~\"" + query + "*\"" else ""
  }

  function StatusClause(status: Option<IssueStatus>): Str
  {
    if status.Some? && status.value.name != MessageAll then " AND status=" + status.value.id else ""
  }

  /** The user's account id, or the user name when the account id is empty. */
  function AssigneeId(user: User): Str
  {
    if user.accountId == "" then user.name else user.accountId
  }

  function AssigneeClause(user: Option<User>): Str
  {
    if user.Some? && user.value.displayName != MessageAll then " AND assignee=" + AssigneeId(user.value) else ""
  }

  function LabelClause(labelFilter: Str): Str
  {
    if labelFilter != "" && labelFilter != MessageAll then " AND labels=" + labelFilter else ""
  }

  function ExcludeClause(excludeStatus: Option<IssueStatus>): Str
  {
    if excludeStatus.Some? && excludeStatus.value.name != MessageAll then " AND status!=" + excludeStatus.value.id else ""
  }

  function IssueKeyClause(query: Str): Str
  {
    if query != "" && MatchesIssueKey(query) then " OR issuekey=\"" + query + "\"" else ""
  }

  /** BuildSearchIssuesJql: the clauses in their fixed order, the leading " AND" characters cut off
      with a cutset, then " ORDER BY status". */
  function BuildSearchIssuesJql(project: Option<Project>, query: Str, status: Option<IssueStatus>,
                                user: Option<User>, labelFilter: Str, excludeStatus: Option<IssueStatus>): Str
  {
    var q := TrimSpace(query);
    TrimLeftCutset(RawJql(project, q, status, user, labelFilter, excludeStatus), AndCutset) + " ORDER BY status"
  }

  /** The clauses concatenated in their fixed order, before the cutset trim. */
  function RawJql(project: Option<Project>, q: Str, status: Option<IssueStatus>,
                  user: Option<User>, labelFilter: Str, excludeStatus: Option<IssueStatus>): Str
  {
    ProjectClause(project) + SummaryClause(q) + StatusClause(status) + AssigneeClause(user) +
    LabelClause(labelFilter) + ExcludeClause(excludeStatus) + IssueKeyClause(q)
  }

  // ---------------------------------------------------------------------------------------------
  // An independent reference: the emitted conditions, in order, joined by " AND ".

  /** The project condition, when one is emitted. */
  function ProjectCondition(project: Option<Project>): seq<Str>
  {
    if project.Some? && project.value.id != MessageAll then ["project=" + project.value.id] else []
  }

  /** The conditions after the project one, each without its " AND " separator, in emission order. */
  function OtherConditions(q: Str, status: Option<IssueStatus>, user: Option<User>, labelFilter: Str,
                           excludeStatus: Option<IssueStatus>): seq<Str>
  {
    SummaryCondition(q) + StatusCondition(status) + AssigneeCondition(user) + LabelCondition(labelFilter) +
    ExcludeCondition(excludeStatus)
  }

  /** Every condition the builder emits, in emission order. */
  function Conditions(project: Option<Project>, q: Str, status: Option<IssueStatus>,
                      user: Option<User>, labelFilter: Str, excludeStatus: Option<IssueStatus>): seq<Str>
  {
    ProjectCondition(project) + OtherConditions(q, status, user, labelFilter, excludeStatus)
  }

  /** " AND c1 AND c2 ..." : every condition preceded by the separator. */
  function Prefixed(cs: seq<Str>): Str
  {
    if cs == [] then [] else " AND " + cs[0] + Prefixed(cs[1..])
  }

  lemma {:induction false} PrefixedAppend(a: seq<Str>, b: seq<Str>)
    ensures Prefixed(a + b) == Prefixed(a) + Prefixed(b)
  {
    if a != [] {
      assert (a + b)[0] == a[0];
      assert (a + b)[1..] == a[1..] + b;
      PrefixedAppend(a[1..], b);
      calc {
        Prefixed(a + b);
        " AND " + a[0] + Prefixed(a[1..] + b);
        " AND " + a[0] + (Prefixed(a[1..]) + Prefixed(b));
        (" AND " + a[0] + Prefixed(a[1..])) + Prefixed(b);
      }
    } else {
      assert a + b == b;
    }
  }

  lemma {:induction false} PrefixedIsJoin(cs: seq<Str>)
    requires cs != []
    ensures Prefixed(cs) == " AND " + Join(cs, " AND ")
    decreases |cs|
  {
    if |cs| > 1 {
      PrefixedIsJoin(cs[1..]);
    }
  }

  lemma PrefixedSingle(c: Str)
    ensures Prefixed([c]) == " AND " + c
  {
    assert [c][1..] == [];
  }

  function SummaryCondition(q: Str): seq<Str>
  {
    if q != "" then ["summary~\"" + q + "*\""] else []
  }

  function StatusCondition(status: Option<IssueStatus>): seq<Str>
  {
    if status.Some? && status.value.name != MessageAll then ["status=" + status.value.id] else []
  }

  function AssigneeCondition(user: Option<User>): seq<Str>
  {
    if user.Some? && user.value.displayName != MessageAll then ["assignee=" + AssigneeId(user.value)] else []
  }

  function LabelCondition(labelFilter: Str): seq<Str>
  {
    if labelFilter != "" && labelFilter != MessageAll then ["labels=" + labelFilter] else []
  }

  function ExcludeCondition(excludeStatus: Option<IssueStatus>): seq<Str>
  {
    if excludeStatus.Some? && excludeStatus.value.name != MessageAll then ["status!=" + excludeStatus.value.id] else []
  }

  lemma PrefixedConcat(s: seq<Str>, st: seq<Str>, a: seq<Str>, l: seq<Str>, e: seq<Str>)
    ensures Prefixed(s + st + a + l + e) == Prefixed(s) + Prefixed(st) + Prefixed(a) + Prefixed(l) + Prefixed(e)
  {
    PrefixedAppend(s, st);
    PrefixedAppend(s + st, a);
    PrefixedAppend(s + st + a, l);
    PrefixedAppend(s + st + a + l, e);
  }

  lemma PrefixedSummary(q: Str)
    ensures Prefixed(SummaryCondition(q)) == SummaryClause(q)
  {
    if q != "" { PrefixedSingle(SummaryCondition(q)[0]); }
  }

  lemma PrefixedStatus(status: Option<IssueStatus>)
    ensures Prefixed(StatusCondition(status)) == StatusClause(status)
  {
    if StatusCondition(status) != [] { PrefixedSingle(StatusCondition(status)[0]); }
  }

  lemma PrefixedAssignee(user: Option<User>)
    ensures Prefixed(AssigneeCondition(user)) == AssigneeClause(user)
  {
    if AssigneeCondition(user) != [] { PrefixedSingle(AssigneeCondition(user)[0]); }
  }

  lemma PrefixedLabel(labelFilter: Str)
    ensures Prefixed(LabelCondition(labelFilter)) == LabelClause(labelFilter)
  {
    if LabelCondition(labelFilter) != [] { PrefixedSingle(LabelCondition(labelFilter)[0]); }
  }

  lemma PrefixedExclude(excludeStatus: Option<IssueStatus>)
    ensures Prefixed(ExcludeCondition(excludeStatus)) == ExcludeClause(excludeStatus)
  {
    if ExcludeCondition(excludeStatus) != [] { PrefixedSingle(ExcludeCondition(excludeStatus)[0]); }
  }

  /** Each optional clause of the builder is the prefixed form of its condition. */
  lemma OtherClausesArePrefixed(q: Str, status: Option<IssueStatus>, user: Option<User>, labelFilter: Str,
                                excludeStatus: Option<IssueStatus>)
    ensures Prefixed(OtherConditions(q, status, user, labelFilter, excludeStatus)) ==
            SummaryClause(q) + StatusClause(status) + AssigneeClause(user) + LabelClause(labelFilter) + ExcludeClause(excludeStatus)
  {
    var s, st, a, l, e := SummaryCondition(q), StatusCondition(status), AssigneeCondition(user),
                          LabelCondition(labelFilter), ExcludeCondition(excludeStatus);
    PrefixedSummary(q);
    PrefixedStatus(status);
    PrefixedAssignee(user);
    PrefixedLabel(labelFilter);
    PrefixedExclude(excludeStatus);
    PrefixedConcat(s, st, a, l, e);
  }

  lemma {:induction false} TrimCutsetPrefix(a: Str, t: Str, cutset: set<char>)
    requires forall i :: 0 <= i < |a| ==> a[i] in cutset
    requires t != [] && t[0] !in cutset
    ensures TrimLeftCutset(a + t, cutset) == t
  {
    if a != [] {
      assert (a + t)[1..] == a[1..] + t;
      TrimCutsetPrefix(a[1..], t, cutset);
    } else {
      assert a + t == t;
    }
  }

  /** The cutset removes exactly the leading separator when what follows starts with a character
      outside the cutset. */
  lemma TrimSeparator(t: Str)
    requires t != [] && t[0] !in AndCutset
    ensures TrimLeftCutset(" AND " + t, AndCutset) == t
  {
    var sep: Str := " AND ";
    assert forall i :: 0 <= i < |sep| ==> sep[i] in AndCutset;
    TrimCutsetPrefix(sep, t, AndCutset);
  }

  lemma RawJqlIsPrefixed(project: Option<Project>, q: Str, status: Option<IssueStatus>,
                         user: Option<User>, labelFilter: Str, excludeStatus: Option<IssueStatus>)
    ensures RawJql(project, q, status, user, labelFilter, excludeStatus) ==
            ProjectClause(project) + Prefixed(OtherConditions(q, status, user, labelFilter, excludeStatus)) + IssueKeyClause(q)
  {
    OtherClausesArePrefixed(q, status, user, labelFilter, excludeStatus);
    Regroup(ProjectClause(project), SummaryClause(q), StatusClause(status), AssigneeClause(user),
            LabelClause(labelFilter), ExcludeClause(excludeStatus), IssueKeyClause(q));
  }

  lemma Regroup(a: Str, b: Str, c: Str, d: Str, e: Str, f: Str, g: Str)
    ensures a + b + c + d + e + f + g == a + (b + c + d + e + f) + g
  {
  }

  /** Every condition of `cs` starts with a rune outside the cutset. */
  predicate StartOutsideCutset(cs: seq<Str>)
  {
    forall c :: c in cs ==> c != [] && c[0] !in AndCutset
  }

  /** Every condition after the project one starts with a lower-case letter, outside the cutset. */
  lemma OtherConditionsStartOutsideCutset(q: Str, status: Option<IssueStatus>, user: Option<User>, labelFilter: Str,
                                          excludeStatus: Option<IssueStatus>)
    ensures forall c :: c in OtherConditions(q, status, user, labelFilter, excludeStatus) ==> c != [] && c[0] !in AndCutset
  {
    var s := SummaryCondition(q);
    var st := StatusCondition(status);
    var a := AssigneeCondition(user);
    var l := LabelCondition(labelFilter);
    var e := ExcludeCondition(excludeStatus);
    assert StartOutsideCutset(s) by { if s != [] { assert s[0][0] == 's'; } }
    assert StartOutsideCutset(st) by { if st != [] { assert st[0][0] == 's'; } }
    assert StartOutsideCutset(a) by { if a != [] { assert a[0][0] == 'a'; } }
    assert StartOutsideCutset(l) by { if l != [] { assert l[0][0] == 'l'; } }
    assert StartOutsideCutset(e) by { if e != [] { assert e[0][0] == 's'; } }
    assert OtherConditions(q, status, user, labelFilter, excludeStatus) == s + st + a + l + e;
  }

  /** With a leading condition the trim removes nothing. */
  lemma TrimAfterHead(head: Str, rest: seq<Str>, key: Str)
    requires head != [] && head[0] !in AndCutset
    ensures TrimLeftCutset(head + Prefixed(rest) + key, AndCutset) == Join([head] + rest, " AND ") + key
  {
    assert (head + Prefixed(rest) + key)[0] == head[0];
    if rest != [] {
      PrefixedIsJoin(rest);
      assert ([head] + rest)[1..] == rest;
    } else {
      assert [head] + rest == [head];
    }
  }

  /** Without a leading condition the trim removes exactly the first separator. */
  lemma TrimWithoutHead(rest: seq<Str>, key: Str)
    requires rest != [] && rest[0] != [] && rest[0][0] !in AndCutset
    ensures TrimLeftCutset(Prefixed(rest) + key, AndCutset) == Join(rest, " AND ") + key
  {
    PrefixedIsJoin(rest);
    var j := Join(rest, " AND ");
    assert j[0] == rest[0][0] by {
      if |rest| > 1 { assert j == rest[0] + " AND " + Join(rest[1..], " AND "); }
    }
    assert Prefixed(rest) + key == " AND " + (j + key);
    TrimSeparator(j + key);
  }

  /** The trim applied to the assembled clause text, stated over its parts. */
  lemma TrimAssembled(pc: Str, p: seq<Str>, rest: seq<Str>, key: Str)
    requires (p == [] && pc == []) || (p == [pc] && pc != [] && pc[0] !in AndCutset)
    requires forall c :: c in rest ==> c != [] && c[0] !in AndCutset
    requires key != [] ==> rest != []
    ensures TrimLeftCutset(pc + Prefixed(rest) + key, AndCutset) == Join(p + rest, " AND ") + key
  {
    if p != [] {
      TrimAfterHead(pc, rest, key);
    } else if rest != [] {
      assert rest[0] in rest;
      assert pc + Prefixed(rest) + key == Prefixed(rest) + key;
      TrimWithoutHead(rest, key);
      assert p + rest == rest;
    } else {
      assert pc + Prefixed(rest) + key == [];
    }
  }

  lemma ProjectParts(project: Option<Project>)
    ensures var p, pc := ProjectCondition(project), ProjectClause(project);
            (p == [] && pc == []) || (p == [pc] && pc != [] && pc[0] !in AndCutset)
  {
  }

  lemma KeyNeedsQuery(q: Str, status: Option<IssueStatus>, user: Option<User>, labelFilter: Str,
                      excludeStatus: Option<IssueStatus>)
    ensures IssueKeyClause(q) != [] ==> OtherConditions(q, status, user, labelFilter, excludeStatus) != []
  {
    if IssueKeyClause(q) != [] {
      assert SummaryCondition(q) != [];
    }
  }

  /** After the trim, the clause text is the conditions joined by " AND ", then the issue-key part. */
  lemma TrimmedRawJql(project: Option<Project>, q: Str, status: Option<IssueStatus>,
                      user: Option<User>, labelFilter: Str, excludeStatus: Option<IssueStatus>)
    ensures TrimLeftCutset(RawJql(project, q, status, user, labelFilter, excludeStatus), AndCutset) ==
            Join(Conditions(project, q, status, user, labelFilter, excludeStatus), " AND ") + IssueKeyClause(q)
  {
    var rest := OtherConditions(q, status, user, labelFilter, excludeStatus);
    RawJqlIsPrefixed(project, q, status, user, labelFilter, excludeStatus);
    OtherConditionsStartOutsideCutset(q, status, user, labelFilter, excludeStatus);
    ProjectParts(project);
    KeyNeedsQuery(q, status, user, labelFilter, excludeStatus);
    TrimAssembled(ProjectClause(project), ProjectCondition(project), rest, IssueKeyClause(q));
  }

  /** The JQL is the emitted conditions joined by " AND ", then the issue-key alternative when the
      trimmed query is key-shaped, then " ORDER BY status"; with no condition it is " ORDER BY status"
      with its leading space. */
  lemma BuildIsJoinedConditions(project: Option<Project>, query: Str, status: Option<IssueStatus>,
                                user: Option<User>, labelFilter: Str, excludeStatus: Option<IssueStatus>)
    ensures var q := TrimSpace(query);
            var cs := Conditions(project, q, status, user, labelFilter, excludeStatus);
            BuildSearchIssuesJql(project, query, status, user, labelFilter, excludeStatus) ==
              Join(cs, " AND ") + (if IssueKeyShape(q) then " OR issuekey=\"" + q + "\"" else "") + " ORDER BY status"
  {
    var q := TrimSpace(query);
    MatchesIssueKeyIsShape(q);
    TrimmedRawJql(project, q, status, user, labelFilter, excludeStatus);
    assert IssueKeyShape(q) ==> q != "";
  }

  /** For an already trimmed, key-shaped query the JQL ends with the issue-key alternative. */
  lemma BuildForTrimmedKey(project: Option<Project>, q: Str, status: Option<IssueStatus>,
                           user: Option<User>, labelFilter: Str, excludeStatus: Option<IssueStatus>)
    requires TrimSpace(q) == q && IssueKeyShape(q)
    ensures BuildSearchIssuesJql(project, q, status, user, labelFilter, excludeStatus) ==
            Join(Conditions(project, q, status, user, labelFilter, excludeStatus), " AND ") +
            (" OR issuekey=\"" + q + "\"") + " ORDER BY status"
  {
    BuildIsJoinedConditions(project, q, status, user, labelFilter, excludeStatus);
  }
}
