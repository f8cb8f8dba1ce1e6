/** The decisions of the issue-search view (internal/issues/search_issues.go): when the cached
    result list is fetched again, which query text is sent, and the excluded-status list. */
module SearchIssues {
  import opened Wrappers
  import opened Text
  import opened Jira
  import opened IssuePatterns
  import opened JqlBuilder

  /** From this many cached results on, every keystroke asks the tracker again. */
  const JiraFetchRecordsThreshold: nat := 100

  /** The selections Go keeps in package variables so that they survive between search views:
      the status, assignee and label filters and the excluded statuses. */
  class SearchSession {
    var searchForStatus: Option<IssueStatus>
    var searchForUser: Option<User>
    var searchForLabel: Str
    var excludedStatuses: seq<IssueStatus>

    constructor ()
      ensures searchForStatus == None && searchForUser == None
      ensures searchForLabel == [] && excludedStatuses == []
    {
      searchForStatus := None;
      searchForUser := None;
      searchForLabel := [];
      excludedStatuses := [];
    }
  }

  ghost predicate DistinctIds(statuses: seq<IssueStatus>)
  {
    forall i, j :: 0 <= i < j < |statuses| ==> statuses[i].id != statuses[j].id
  }

  /** The duplicate check of runExcludeStatus: a scan that stops at the first status with this id. */
  method IsExcluded(statuses: seq<IssueStatus>, id: Str) returns (found: bool)
    ensures found <==> exists i :: 0 <= i < |statuses| && statuses[i].id == id
  {
    found := false;
    var i := 0;
    while i < |statuses|
      invariant 0 <= i <= |statuses|
      invariant !found
      invariant forall j :: 0 <= j < i ==> statuses[j].id != id
    {
      if statuses[i].id == id {
        found := true;
        break;
      }
      i := i + 1;
    }
  }

  /** Each name preceded by a minus sign. */
  function Negated(names: seq<Str>): (r: seq<Str>)
    ensures |r| == |names|
  {
    if names == [] then [] else ["-" + names[0]] + Negated(names[1..])
  }

  function StatusNames(statuses: seq<IssueStatus>): (names: seq<Str>)
    ensures |names| == |statuses| && forall i :: 0 <= i < |statuses| ==> names[i] == statuses[i].name
  {
    if statuses == [] then [] else [statuses[0].name] + StatusNames(statuses[1..])
  }

  /** What the "Exclude Status" entry of the top bar shows: every excluded status negated, separated
      by ", ", or a lone "-" when nothing is excluded. */
  function ExcludedStatusLabel(statuses: seq<IssueStatus>): Str
  {
    if statuses == [] then "-" else Join(Negated(StatusNames(statuses)), ", ")
  }

  lemma {:induction false} NegatedJoin(names: seq<Str>)
    requires names != []
    ensures "-" + Join(names, ", -") == Join(Negated(names), ", ")
    decreases |names|
  {
    if |names| > 1 {
      NegatedJoin(names[1..]);
      assert Negated(names)[1..] == Negated(names[1..]);
      calc {
        "-" + Join(names, ", -");
        "-" + (names[0] + ", -" + Join(names[1..], ", -"));
        ("-" + names[0]) + ", " + ("-" + Join(names[1..], ", -"));
        Negated(names)[0] + ", " + Join(Negated(names)[1..], ", ");
      }
    }
  }

  /** The text Update computes for the excluded statuses: the names gathered into a slice, joined
      with ", -" and prefixed with "-" (and "-" alone when the list is empty). */
  method ExcludedStatusText(statuses: seq<IssueStatus>) returns (text: Str)
    ensures text == ExcludedStatusLabel(statuses)
    ensures |text| >= 1 && text[0] == '-'
  {
    if |statuses| > 0 {
      var statusNames := new Str[|statuses|];
      var i := 0;
      while i < |statuses|
        invariant 0 <= i <= |statuses|
        invariant forall j :: 0 <= j < i ==> statusNames[j] == statuses[j].name
      {
        statusNames[i] := statuses[i].name;
        i := i + 1;
      }
      assert statusNames[..] == StatusNames(statuses);
      NegatedJoin(statusNames[..]);
      text := "-" + Join(statusNames[..], ", -");
    } else {
      text := "-";
    }
  }

  /** The refetch rule of findIssues: the cached list is reused only for a custom JQL search whose
      cache is non-empty and below the threshold, not marked dirty, after a query that was not
      key-shaped, and for a non-blank query. */
  predicate NeedsRefetch(customJql: Str, cachedCount: nat, dirty: bool, previousQuery: Str, q: Str)
  {
    customJql == [] || cachedCount >= JiraFetchRecordsThreshold || cachedCount == 0 || dirty ||
    MatchesIssueKey(previousQuery) || q == []
  }

  /** The issues of a search answer; a failed search leaves no issues. */
  function Issues(answer: Result<seq<Issue>, Str>): seq<Issue>
  {
    if answer.Ok? then answer.value else []
  }

  /** The query text searchForIssues hands to the builder: the trimmed query, prefixed with
      "<project key>-" when the PREVIOUS query (`previousQuery`, the view's currentQuery) was all digits. */
  function EffectiveQuery(project: Option<Project>, previousQuery: Str, query: Str): Str
  {
    var q := TrimSpace(query);
    if MatchesOnlyNumeric(previousQuery) && project.Some? && project.value.key != [] then project.value.key + "-" + q else q
  }

  /** The JQL searchForIssues sends: a non-empty custom JQL replaces the built one entirely. */
  function SearchForIssuesJql(project: Option<Project>, previousQuery: Str, customJql: Str,
                              status: Option<IssueStatus>, user: Option<User>, labelFilter: Str,
                              excludeStatus: Option<IssueStatus>, query: Str): Str
  {
    if customJql != [] then customJql
    else BuildSearchIssuesJql(project, EffectiveQuery(project, previousQuery, query), status, user, labelFilter, excludeStatus)
  }

  /** The prefixed number is a key-shaped query that trimming leaves alone. */
  lemma NumericFollowUpKey(projectKey: Str, digits: Str)
    requires MatchesOnlyNumeric(digits)
    requires 2 <= |projectKey| <= 10 && forall i :: 0 <= i < |projectKey| ==> IsAsciiAlnum(projectKey[i])
    ensures var k := projectKey + "-" + digits;
            TrimSpace(k) == k && IssueKeyShape(k)
  {
    var k := projectKey + "-" + digits;
    ProjectPrefixMakesKey(projectKey, digits);
    MatchesIssueKeyIsShape(k);
    assert k[0] == projectKey[0] && k[|k| - 1] == digits[|digits| - 1];
    assert IsDigit(digits[|digits| - 1]);
    TrimSpaceKeeps(k);
  }

  /** A number typed after a number, in a project whose key is 2-10 alphanumeric characters, is
      searched as the issue "<key>-<number>": the JQL ends with the issue-key alternative. */
  lemma NumericFollowUpSearchesByKey(project: Project, previousQuery: Str, status: Option<IssueStatus>,
                                     user: Option<User>, labelFilter: Str, excludeStatus: Option<IssueStatus>,
                                     query: Str)
    requires MatchesOnlyNumeric(previousQuery) && MatchesOnlyNumeric(TrimSpace(query))
    requires 2 <= |project.key| <= 10 && forall i :: 0 <= i < |project.key| ==> IsAsciiAlnum(project.key[i])
    ensures var k := project.key + "-" + TrimSpace(query);
            SearchForIssuesJql(Some(project), previousQuery, "", status, user, labelFilter, excludeStatus, query) ==
              Join(Conditions(Some(project), k, status, user, labelFilter, excludeStatus), " AND ") +
              (" OR issuekey=\"" + k + "\"") + " ORDER BY status"
  {
    var k := project.key + "-" + TrimSpace(query);
    NumericFollowUpBuildsFor(project, previousQuery, status, user, labelFilter, excludeStatus, query);
    NumericFollowUpKey(project.key, TrimSpace(query));
    BuildForTrimmedKey(Some(project), k, status, user, labelFilter, excludeStatus);
  }

  lemma NumericFollowUpBuildsFor(project: Project, previousQuery: Str, status: Option<IssueStatus>,
                                 user: Option<User>, labelFilter: Str, excludeStatus: Option<IssueStatus>,
                                 query: Str)
    requires MatchesOnlyNumeric(previousQuery) && project.key != []
    ensures SearchForIssuesJql(Some(project), previousQuery, "", status, user, labelFilter, excludeStatus, query) ==
            BuildSearchIssuesJql(Some(project), project.key + "-" + TrimSpace(query), status, user, labelFilter,
                                 excludeStatus)
  {
    assert EffectiveQuery(Some(project), previousQuery, query) == project.key + "-" + TrimSpace(query);
  }

  class SearchIssuesView {
    var project: Option<Project>
    var currentQuery: Str
    var customJql: Str
    var issues: seq<Issue>
    var dirty: bool

    constructor (project: Option<Project>, customJql: Str)
      ensures this.project == project && this.customJql == customJql
      ensures currentQuery == [] && issues == [] && !dirty
    {
      this.project := project;
      this.customJql := customJql;
      currentQuery := [];
      issues := [];
      dirty := false;
    }

    predicate QueryHasIssueFormat()
      reads this
    {
      MatchesIssueKey(currentQuery)
    }

    predicate QueryHasOnlyNumeric()
      reads this
    {
      MatchesOnlyNumeric(currentQuery)
    }

    /** The JQL searchForIssues sends for `query`. */
    function SearchJql(session: SearchSession, query: Str, excludeStatus: Option<IssueStatus>): Str
      reads this, session
    {
      SearchForIssuesJql(project, currentQuery, customJql, session.searchForStatus, session.searchForUser,
                         session.searchForLabel, excludeStatus, query)
    }

    /** searchForIssues: send the JQL for `query` and keep the answer's issues (none on failure). */
    method SearchForIssues(session: SearchSession, query: Str, excludeStatus: Option<IssueStatus>,
                           search: Str -> Result<seq<Issue>, Str>) returns (found: seq<Issue>)
      ensures found == Issues(search(SearchJql(session, query, excludeStatus)))
    {
      var jql := SearchForIssuesJql(project, currentQuery, customJql, session.searchForStatus,
                                    session.searchForUser, session.searchForLabel, excludeStatus, query);
      found := Issues(search(jql));
    }

    /** findIssues: fetch again when NeedsRefetch says so (which clears `dirty`), then remember the
        trimmed query; the issues returned are the ones the fuzzy finder lists. */
    method FindIssues(session: SearchSession, query: Str, excludeStatus: Option<IssueStatus>,
                      search: Str -> Result<seq<Issue>, Str>) returns (shown: seq<Issue>)
      modifies this
      ensures var q := TrimSpace(query);
              var refetch := NeedsRefetch(old(customJql), |old(issues)|, old(dirty), old(currentQuery), q);
              issues == (if refetch then Issues(search(old(SearchJql(session, q, excludeStatus)))) else old(issues)) &&
              dirty == (old(dirty) && !refetch)
      ensures currentQuery == TrimSpace(query)
      ensures shown == issues
      ensures project == old(project) && customJql == old(customJql)
    {
      var q := TrimSpace(query);
      if NeedsRefetch(customJql, |issues|, dirty, currentQuery, q) {
        issues := SearchForIssues(session, q, excludeStatus, search);
        dirty := false;
      }
      currentQuery := q;
      shown := issues;
    }

    /** runExcludeStatus after the picker returned `picked` (None when it was cancelled): "All" and a
        status whose id is already excluded change nothing; any other status is appended and marks
        the view dirty. */
    method RunExcludeStatus(session: SearchSession, picked: Option<IssueStatus>)
      modifies this, session
      ensures var added := picked.Some? && picked.value.name != MessageAll &&
                           !(exists i :: 0 <= i < |old(session.excludedStatuses)| &&
                                         old(session.excludedStatuses)[i].id == picked.value.id);
              (if added then session.excludedStatuses == old(session.excludedStatuses) + [picked.value] && dirty
               else session.excludedStatuses == old(session.excludedStatuses) && dirty == old(dirty))
      ensures DistinctIds(old(session.excludedStatuses)) ==> DistinctIds(session.excludedStatuses)
      ensures session.searchForStatus == old(session.searchForStatus) && session.searchForUser == old(session.searchForUser)
      ensures session.searchForLabel == old(session.searchForLabel)
      ensures project == old(project) && currentQuery == old(currentQuery) && customJql == old(customJql)
      ensures issues == old(issues)
    {
      if picked.Some? {
        var selectedStatus := picked.value;
        if selectedStatus.name != MessageAll {
          var alreadyExcluded := IsExcluded(session.excludedStatuses, selectedStatus.id);
          if !alreadyExcluded {
            session.excludedStatuses := session.excludedStatuses + [selectedStatus];
            dirty := true;
          }
        }
      }
    }

    /** runClearExcludedStatuses: forget every excluded status and fetch again next time. */
    method RunClearExcludedStatuses(session: SearchSession)
      modifies this, session
      ensures session.excludedStatuses == [] && dirty
      ensures session.searchForStatus == old(session.searchForStatus) && session.searchForUser == old(session.searchForUser)
      ensures session.searchForLabel == old(session.searchForLabel)
      ensures project == old(project) && currentQuery == old(currentQuery) && customJql == old(customJql)
      ensures issues == old(issues)
    {
      session.excludedStatuses := [];
      dirty := true;
    }
  }
}
