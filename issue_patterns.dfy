/** The two query patterns of the issue search (internal/issues/search_issues.go:44-45), shared
    by the search view and the JQL builder. */
module IssuePatterns {
  import opened Text

  /** `^[A-Za-z0-9]{2,10}-[0-9]+$` as a declarative statement of what the expression accepts. */
  ghost predicate IssueKeyShape(s: seq<char>)
  {
    exists k {:trigger s[k]} :: 2 <= k <= 10 && k < |s| - 1 && s[k] == '-' &&
      (forall i :: 0 <= i < k ==> IsAsciiAlnum(s[i])) &&
      (forall i :: k < i < |s| ==> IsDigit(s[i]))
  }

  /** Index of the first '-' in `s`, or |s| when there is none. */
  function DashIndex(s: seq<char>): (k: nat)
    ensures k <= |s| && (k < |s| ==> s[k] == '-')
    ensures forall i :: 0 <= i < k ==> s[i] != '-'
  {
    if s == [] || s[0] == '-' then 0 else 1 + DashIndex(s[1..])
  }

  /** The matcher for `^[A-Za-z0-9]{2,10}-[0-9]+$` (search_issues.go:44): the key part ends at the
      first dash, since a dash is not alphanumeric. */
  function MatchesIssueKey(s: seq<char>): (b: bool)
  {
    var k := DashIndex(s);
    2 <= k <= 10 && k < |s| - 1 &&
    (forall i :: 0 <= i < k ==> IsAsciiAlnum(s[i])) &&
    (forall i :: k < i < |s| ==> IsDigit(s[i]))
  }

  lemma {:induction false} DashIndexAt(s: seq<char>, k: nat)
    requires k < |s| && s[k] == '-'
    requires forall i :: 0 <= i < k ==> s[i] != '-'
    ensures DashIndex(s) == k
  {
    if k > 0 {
      assert s[0] != '-';
      DashIndexAt(s[1..], k - 1);
    }
  }

  lemma MatchesIssueKeyIsShape(s: seq<char>)
    ensures MatchesIssueKey(s) <==> IssueKeyShape(s)
  {
    if IssueKeyShape(s) {
      var k :| 2 <= k <= 10 && k < |s| - 1 && s[k] == '-' &&
        (forall i :: 0 <= i < k ==> IsAsciiAlnum(s[i])) &&
        (forall i :: k < i < |s| ==> IsDigit(s[i]));
      DashIndexAt(s, k);
    }
    if MatchesIssueKey(s) {
      var k := DashIndex(s);
      assert s[k] == '-';
    }
  }

  /** `^[0-9]+$` (search_issues.go:45). */
  predicate MatchesOnlyNumeric(s: seq<char>)
  {
    |s| >= 1 && AllDigits(s)
  }

  /** A numeric-only query contains no dash, so it is never key-shaped. */
  lemma NumericIsNotKey(s: seq<char>)
    requires MatchesOnlyNumeric(s)
    ensures !IssueKeyShape(s)
  {
    forall k | 0 <= k < |s| ensures s[k] != '-' {
      assert IsDigit(s[k]);
    }
  }

  /** Prefixing a numeric query with a 2-10 character alphanumeric project key and a dash yields a
      key-shaped query: the combination the search view relies on. */
  lemma {:induction false} ProjectPrefixMakesKey(projectKey: seq<char>, digits: seq<char>)
    requires 2 <= |projectKey| <= 10 && forall i :: 0 <= i < |projectKey| ==> IsAsciiAlnum(projectKey[i])
    requires MatchesOnlyNumeric(digits)
    ensures MatchesIssueKey(projectKey + "-" + digits)
  {
    var s := projectKey + "-" + digits;
    var k := |projectKey|;
    assert s[k] == '-';
    assert forall i :: 0 <= i < k ==> s[i] == projectKey[i] && s[i] != '-';
    DashIndexAt(s, k);
    assert forall i :: k < i < |s| ==> s[i] == digits[i - k - 1];
  }

}
