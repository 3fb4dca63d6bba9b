/** The pure parts of repository detection: the `GitInfo` record and its
    defaults, the GitHub remote-URL pattern, the license-file classifier, the
    commit-summary and contributor limits, and the context suggested to the
    README composer. Reading the repository, the file system and the network
    are left to the caller, whose results arrive here as values. */
module GitUtils {
  import opened Base
  import opened Text
  import opened Composer
  import Licenses

  // ----- The record ----------------------------------------------------------

  datatype GitInfo = GitInfo(
    isGitRepo: bool,
    projectName: Option<string>,
    remoteUrl: Option<string>,
    githubUsername: Option<string>,
    repoName: Option<string>,
    defaultBranch: Option<string>,
    description: Option<string>,
    contributors: seq<string>,
    recentCommits: seq<string>,
    hasLicense: bool,
    licenseType: Option<string>,
    hasReadme: bool,
    languages: seq<string>)

  function OrEmpty(xs: Option<seq<string>>): (r: seq<string>)
    ensures xs.None? ==> r == []
    ensures xs.Some? ==> r == xs.value
  {
    if xs.Some? then xs.value else []
  }

  /** `GitInfo(...)` followed by `__post_init__`: the three list fields given
      as None become empty lists; everything else is stored as given. */
  function MakeGitInfo(
    isGitRepo: bool, projectName: Option<string>, remoteUrl: Option<string>,
    githubUsername: Option<string>, repoName: Option<string>, defaultBranch: Option<string>,
    description: Option<string>, contributors: Option<seq<string>>,
    recentCommits: Option<seq<string>>, hasLicense: bool, licenseType: Option<string>,
    hasReadme: bool, languages: Option<seq<string>>): (r: GitInfo)
    ensures contributors.None? ==> r.contributors == []
    ensures recentCommits.None? ==> r.recentCommits == []
    ensures languages.None? ==> r.languages == []
    ensures contributors.Some? ==> r.contributors == contributors.value
    ensures recentCommits.Some? ==> r.recentCommits == recentCommits.value
    ensures languages.Some? ==> r.languages == languages.value
    ensures r.isGitRepo == isGitRepo && r.hasLicense == hasLicense && r.hasReadme == hasReadme
    ensures r.projectName == projectName && r.remoteUrl == remoteUrl && r.licenseType == licenseType
    ensures r.githubUsername == githubUsername && r.repoName == repoName
    ensures r.defaultBranch == defaultBranch && r.description == description
  {
    GitInfo(isGitRepo, projectName, remoteUrl, githubUsername, repoName, defaultBranch,
            description, OrEmpty(contributors), OrEmpty(recentCommits), hasLicense,
            licenseType, hasReadme, OrEmpty(languages))
  }

  /** `GitInfo()`: every field at its default. */
  function EmptyGitInfo(): (r: GitInfo)
    ensures !r.isGitRepo && !r.hasLicense && !r.hasReadme
    ensures r.contributors == [] && r.recentCommits == [] && r.languages == []
    ensures r.projectName.None? && r.remoteUrl.None? && r.githubUsername.None? && r.repoName.None?
    ensures r.defaultBranch.None? && r.description.None? && r.licenseType.None?
  {
    MakeGitInfo(false, None, None, None, None, None, None, None, None, false, None, false, None)
  }

  // ----- The GitHub remote pattern -------------------------------------------
  //
  // `re.search(r'github\.com[:/]([^/]+)/([^/.]+)', url)`: the leftmost position
  // where the pattern matches; both character classes are greedy, and since
  // the first is followed by `/` and the second ends the pattern, backtracking
  // never shortens either.

  const Host: string := "github.com"

  /** Length of the longest run starting at `j` with no character from `stop`. */
  function Run(s: string, j: nat, stop: set<char>): (n: nat)
    requires j <= |s|
    ensures j + n <= |s|
    ensures forall k :: j <= k < j + n ==> s[k] !in stop
    ensures j + n < |s| ==> s[j + n] in stop
    decreases |s| - j
  {
    if j == |s| || s[j] in stop then 0 else 1 + Run(s, j + 1, stop)
  }

  /** A run is determined by where it stops. */
  lemma RunUnique(s: string, j: nat, stop: set<char>, n: nat)
    requires j + n <= |s|
    requires forall k :: j <= k < j + n ==> s[k] !in stop
    requires j + n == |s| || s[j + n] in stop
    ensures Run(s, j, stop) == n
  {
    var m := Run(s, j, stop);
    assert m <= n by {
      if j + n < |s| {
        assert s[j + n] in stop;
      }
    }
    assert m >= n by {
      if j + m < |s| {
        assert s[j + m] in stop;
      }
    }
  }

  predicate NoSlash(u: string) {
    forall k :: 0 <= k < |u| ==> u[k] != '/'
  }

  predicate NoSlashOrDot(r: string) {
    forall k :: 0 <= k < |r| ==> r[k] != '/' && r[k] != '.'
  }

  /** The pattern matches at `i` with groups `user` and `repo`. */
  predicate IsMatch(s: string, i: nat, user: string, repo: string) {
    var j := i + |Host| + 1;
    var k := j + |user| + 1;
    && k + |repo| <= |s|
    && OccursAt(s, Host, i)
    && (s[i + |Host|] == ':' || s[i + |Host|] == '/')
    && user != [] && NoSlash(user) && s[j..j + |user|] == user
    && s[j + |user|] == '/'
    && repo != [] && NoSlashOrDot(repo) && s[k..k + |repo|] == repo
    && (k + |repo| == |s| || s[k + |repo|] == '/' || s[k + |repo|] == '.')
  }

  /** Trying the pattern at one position. */
  function MatchAt(s: string, i: nat): (r: Option<(string, string)>)
    ensures r.Some? ==> IsMatch(s, i, r.value.0, r.value.1)
  {
    var j := i + |Host| + 1;
    if j > |s| || !OccursAt(s, Host, i) || !(s[i + |Host|] == ':' || s[i + |Host|] == '/') then None
    else
      var n := Run(s, j, {'/'});
      if n == 0 || j + n == |s| then None
      else
        var k := j + n + 1;
        var m := Run(s, k, {'/', '.'});
        if m == 0 then None
        else Some((s[j..j + n], s[k..k + m]))
  }

  /** A group that sits at `j`, avoids `stop` and is followed by a stop
      character or the end is exactly the maximal run there. */
  lemma GroupIsRun(s: string, j: nat, g: string, stop: set<char>)
    requires j + |g| <= |s| && s[j..j + |g|] == g
    requires forall x :: 0 <= x < |g| ==> g[x] !in stop
    requires j + |g| == |s| || s[j + |g|] in stop
    ensures Run(s, j, stop) == |g|
  {
    forall x | j <= x < j + |g|
      ensures s[x] !in stop
    {
      assert s[x] == s[j..j + |g|][x - j];
    }
    RunUnique(s, j, stop, |g|);
  }

  /** Every match the pattern admits at `i` is the one `MatchAt` finds. */
  lemma MatchAtComplete(s: string, i: nat, user: string, repo: string)
    requires IsMatch(s, i, user, repo)
    ensures MatchAt(s, i) == Some((user, repo))
  {
    var j := i + |Host| + 1;
    var k := j + |user| + 1;
    GroupIsRun(s, j, user, {'/'});
    GroupIsRun(s, k, repo, {'/', '.'});
  }

  /** The first position at or after `i` where the pattern matches, or `|s| + 1`. */
  function FirstMatch(s: string, i: nat): (p: nat)
    requires i <= |s| + 1
    ensures i <= p <= |s| + 1
    ensures p <= |s| ==> MatchAt(s, p).Some?
    ensures forall q :: i <= q < p ==> MatchAt(s, q).None?
    decreases |s| + 1 - i
  {
    if i == |s| + 1 then i
    else if MatchAt(s, i).Some? then i
    else FirstMatch(s, i + 1)
  }

  /** No match can start past the end. */
  lemma NoMatchPastEnd(s: string, i: nat, user: string, repo: string)
    requires IsMatch(s, i, user, repo)
    ensures i < |s|
  {
  }

  /** The search: the groups of the leftmost match, if any. */
  function ParseGitHubRemote(url: string): (r: Option<(string, string)>)
    ensures r.Some? ==> r.value.0 != [] && NoSlash(r.value.0)
    ensures r.Some? ==> r.value.1 != [] && NoSlashOrDot(r.value.1)
    ensures r.Some? ==> IsMatch(url, FirstMatch(url, 0), r.value.0, r.value.1)
    ensures r.None? ==> forall i: nat, u, p :: !IsMatch(url, i, u, p)
  {
    var p := FirstMatch(url, 0);
    if p <= |url| then MatchAt(url, p)
    else
      assert forall i: nat, u, q :: IsMatch(url, i, u, q) ==> MatchAt(url, i).Some? by {
        forall i: nat, u, q | IsMatch(url, i, u, q)
          ensures MatchAt(url, i).Some?
        {
          MatchAtComplete(url, i, u, q);
        }
      }
      assert forall i: nat, u, q :: IsMatch(url, i, u, q) ==> i <= |url| by {
        forall i: nat, u, q | IsMatch(url, i, u, q)
          ensures i <= |url|
        {
          NoMatchPastEnd(url, i, u, q);
        }
      }
      None
  }

  /** The match found is the leftmost: no match of any groups starts earlier. */
  lemma ParseIsLeftmost(url: string, i: nat, u: string, p: string)
    requires IsMatch(url, i, u, p)
    ensures ParseGitHubRemote(url).Some?
    ensures FirstMatch(url, 0) <= i
  {
    MatchAtComplete(url, i, u, p);
    NoMatchPastEnd(url, i, u, p);
  }

  /** A match is unaffected by text put in front of it. */
  lemma IsMatchShift(p: string, t: string, user: string, repo: string)
    requires IsMatch(t, 0, user, repo)
    ensures IsMatch(p + t, |p|, user, repo)
  {
    var s := p + t;
    var i := |p|;
    var j := |Host| + 1;
    var k := j + |user| + 1;
    assert s[i..i + |Host|] == t[..|Host|];
    assert s[i + j..i + j + |user|] == t[j..j + |user|];
    assert s[i + k..i + k + |repo|] == t[k..k + |repo|];
  }

  /** The host, a separator, the owner, `/`, the repository, and a tail that
      stops the repository group. */
  lemma HostFirstMatches(sep: char, user: string, repo: string, rest: string)
    requires sep == ':' || sep == '/'
    requires user != [] && NoSlash(user)
    requires repo != [] && NoSlashOrDot(repo)
    requires rest == [] || rest[0] == '/' || rest[0] == '.'
    ensures IsMatch(Host + [sep] + user + "/" + repo + rest, 0, user, repo)
  {
    var t := Host + [sep] + user + "/" + repo + rest;
    var j := |Host| + 1;
    var k := j + |user| + 1;
    assert t[..|Host|] == Host;
    assert t[j..j + |user|] == user;
    assert t[k..k + |repo|] == repo;
    assert k + |repo| < |t| ==> t[k + |repo|] == rest[0];
  }

  /** When nothing before `t` can start the host name, the search finds the
      match at the start of `t`. */
  lemma RemoteParses(prefix: string, t: string, user: string, repo: string)
    requires IsMatch(t, 0, user, repo)
    requires forall x :: 0 <= x < |prefix| ==> !OccursAt(prefix + t, Host, x)
    ensures ParseGitHubRemote(prefix + t) == Some((user, repo))
  {
    var s := prefix + t;
    IsMatchShift(prefix, t, user, repo);
    MatchAtComplete(s, |prefix|, user, repo);
    ParseIsLeftmost(s, |prefix|, user, repo);
  }

  /** `https://github.com/<owner>/<repo>`, with or without a `.git` or `/` tail. */
  lemma HttpsRemoteParses(user: string, repo: string, rest: string)
    requires user != [] && NoSlash(user)
    requires repo != [] && NoSlashOrDot(repo)
    requires rest == [] || rest[0] == '/' || rest[0] == '.'
    ensures ParseGitHubRemote(HttpsPrefix + user + "/" + repo + rest) == Some((user, repo))
  {
    var t := Host + ['/'] + user + "/" + repo + rest;
    HostFirstMatches('/', user, repo, rest);
    NoHostInside("https://", t);
    RemoteParses("https://", t, user, repo);
    Spelling("https://", '/', user, repo, rest);
  }

  const HttpsPrefix: string := "https://" + Host + "/"
  const SshPrefix: string := "git@" + Host + ":"

  /** A prefix in which no position can start the host name. */
  lemma NoHostInside(prefix: string, t: string)
    requires prefix == "https://" || prefix == "git@"
    ensures forall x :: 0 <= x < |prefix| ==> !OccursAt(prefix + t, Host, x)
  {
    forall x | 0 <= x < |prefix|
      ensures !OccursAt(prefix + t, Host, x)
    {
      if prefix == "git@" && x == 0 {
        assert (prefix + t)[3] == '@' != Host[3];
        Mismatch(prefix + t, Host, 0, 3);
      } else {
        assert (prefix + t)[x] == prefix[x] != Host[0];
        Mismatch(prefix + t, Host, x, 0);
      }
    }
  }

  /** One differing character rules out an occurrence. */
  lemma Mismatch(s: string, sub: string, i: nat, d: nat)
    requires d < |sub| && i + d < |s| && s[i + d] != sub[d]
    ensures !OccursAt(s, sub, i)
  {
    if i + |sub| <= |s| {
      assert s[i..i + |sub|][d] == s[i + d];
    }
  }

  lemma Spelling(scheme: string, sep: char, user: string, repo: string, rest: string)
    ensures scheme + (Host + [sep] + user + "/" + repo + rest) == scheme + Host + [sep] + user + "/" + repo + rest
  {
  }

  /** `git@github.com:<owner>/<repo>.git`. */
  lemma SshRemoteParses(user: string, repo: string)
    requires user != [] && NoSlash(user)
    requires repo != [] && NoSlashOrDot(repo)
    ensures ParseGitHubRemote(SshPrefix + user + "/" + repo + ".git") == Some((user, repo))
  {
    var t := Host + [':'] + user + "/" + repo + ".git";
    HostFirstMatches(':', user, repo, ".git");
    NoHostInside("git@", t);
    RemoteParses("git@", t, user, repo);
    Spelling("git@", ':', user, repo, ".git");
  }

  /** The HTTPS and SSH spellings of one remote name the same repository. */
  lemma BothSpellingsAgree(user: string, repo: string)
    requires user != [] && NoSlash(user)
    requires repo != [] && NoSlashOrDot(repo)
    ensures ParseGitHubRemote(HttpsPrefix + user + "/" + repo + ".git") == ParseGitHubRemote(SshPrefix + user + "/" + repo + ".git")
    ensures ParseGitHubRemote(HttpsPrefix + user + "/" + repo) == ParseGitHubRemote(SshPrefix + user + "/" + repo + ".git")
  {
    HttpsRemoteParses(user, repo, ".git");
    HttpsRemoteParses(user, repo, "");
    assert HttpsPrefix + user + "/" + repo + "" == HttpsPrefix + user + "/" + repo;
    SshRemoteParses(user, repo);
  }

  /** Recording a remote: the URL is stored, and the owner and repository are
      set from the leftmost match or left as they were when nothing matches. */
  function WithRemote(info: GitInfo, url: string): (r: GitInfo)
    ensures r.remoteUrl == Some(url)
    ensures ParseGitHubRemote(url).None? ==> r.githubUsername == info.githubUsername && r.repoName == info.repoName
    ensures ParseGitHubRemote(url).Some? ==>
              r.githubUsername == Some(ParseGitHubRemote(url).value.0) && r.repoName == Some(ParseGitHubRemote(url).value.1)
    ensures r.(remoteUrl := info.remoteUrl, githubUsername := info.githubUsername, repoName := info.repoName) == info
  {
    match ParseGitHubRemote(url)
    case None => info.(remoteUrl := Some(url))
    case Some((user, repo)) => info.(remoteUrl := Some(url), githubUsername := Some(user), repoName := Some(repo))
  }

  // ----- The license-file classifier -----------------------------------------

  /** How much of the file the classifier reads. */
  const ClassifierWindow: nat := 1000

  /** `f.read().lower()[:1000]`. */
  function Window(content: string): (w: string)
    ensures |w| <= ClassifierWindow
    ensures forall i :: 0 <= i < |w| ==> !IsAsciiUpper(w[i])
  {
    Take(Lower(content), ClassifierWindow)
  }

  const GplName: string := "gnu general public license"
  // The phrases the classifier looks for, all in lower case.
  const MitPhrase: string := "mit license"
  const GrantPhrase: string := "permission is hereby granted, free of charge"
  const ApachePhrase: string := "apache license"
  const Version20: string := "version 2.0"
  const Version3: string := "version 3"
  const Version2: string := "version 2"
  const BsdPhrase: string := "bsd"
  const ThreeClause: string := "3-clause"
  const ThreeClauseWords: string := "three clause"
  const TwoClause: string := "2-clause"
  const TwoClauseWords: string := "two clause"
  const IscPhrase: string := "isc license"
  const MozillaPhrase: string := "mozilla public license"
  const UnlicensePhrase: string := "unlicense"

  /** The tests of `_detect_license_type`, in order, on the lowered window. */
  function Classify(c: string): (r: Option<string>)
    ensures r.Some? ==> r.value in ClassifierResults
  {
    if Contains(c, MitPhrase) || Contains(c, GrantPhrase) then Some("MIT")
    else if Contains(c, ApachePhrase) && Contains(c, Version20) then Some("Apache-2.0")
    else if Contains(c, GplName) then
      if Contains(c, Version3) then Some("GPL-3.0")
      else if Contains(c, Version2) then Some("GPL-2.0")
      else Some("GPL")
    else if Contains(c, BsdPhrase) then
      if Contains(c, ThreeClause) || Contains(c, ThreeClauseWords) then Some("BSD-3-Clause")
      else if Contains(c, TwoClause) || Contains(c, TwoClauseWords) then Some("BSD-2-Clause")
      else Some("BSD")
    else if Contains(c, IscPhrase) then Some("ISC")
    else if Contains(c, MozillaPhrase) then Some("MPL-2.0")
    else if Contains(c, UnlicensePhrase) then Some("Unlicense")
    else None
  }

  /** `_detect_license_type`, on the file's content: the first rule of the
      classifier's table that fires on the lower-cased first 1000 characters. */
  function DetectLicenseType(content: string): (r: Option<string>)
    ensures r.Some? ==> r.value in ClassifierResults
    ensures r == FirstFiring(ClassifierRules, Window(content))
  {
    ClassifyFollowsRuleTable(Window(content));
    Classify(Window(content))
  }

  const ClassifierResults: set<string> :=
    {"MIT", "Apache-2.0", "GPL-3.0", "GPL-2.0", "GPL", "BSD-3-Clause", "BSD-2-Clause", "BSD", "ISC", "MPL-2.0", "Unlicense"}

  lemma LowerTake(s: string, n: nat)
    ensures Lower(Take(s, n)) == Take(Lower(s), n)
  {
  }

  /** Only the first 1000 characters of the file matter. */
  lemma DetectReadsOnlyWindow(content: string)
    ensures DetectLicenseType(content) == DetectLicenseType(Take(content, ClassifierWindow))
  {
    LowerTake(content, ClassifierWindow);
    assert Window(Take(content, ClassifierWindow)) == Window(content);
  }

  /** The classifier does not see case. */
  lemma DetectIgnoresCase(content: string)
    ensures DetectLicenseType(Lower(content)) == DetectLicenseType(content)
  {
    LowerIdempotent(content);
  }

  /** A flat statement of the classifier: rules tried in order, each firing when
      every phrase of one of its alternatives occurs in the window. */
  datatype Rule = Rule(alternatives: seq<seq<string>>, result: string)

  predicate AllOccur(c: string, phrases: seq<string>)
    decreases |phrases|
  {
    phrases == [] || (Contains(c, phrases[0]) && AllOccur(c, phrases[1..]))
  }

  predicate AnyAlternative(c: string, alternatives: seq<seq<string>>)
    decreases |alternatives|
  {
    alternatives != [] && (AllOccur(c, alternatives[0]) || AnyAlternative(c, alternatives[1..]))
  }

  function FirstFiring(rules: seq<Rule>, c: string): (r: Option<string>)
    ensures r.Some? ==> exists i :: 0 <= i < |rules| && rules[i].result == r.value
    decreases |rules|
  {
    if rules == [] then None
    else if AnyAlternative(c, rules[0].alternatives) then Some(rules[0].result)
    else
      var r := FirstFiring(rules[1..], c);
      assert r.Some? ==> exists i :: 1 <= i < |rules| && rules[i].result == r.value by {
        if r.Some? {
          var i :| 0 <= i < |rules[1..]| && rules[1..][i].result == r.value;
          assert rules[i + 1].result == r.value;
        }
      }
      r
  }

  const MitRule := Rule([[MitPhrase], [GrantPhrase]], "MIT")
  const ApacheRule := Rule([[ApachePhrase, Version20]], "Apache-2.0")
  const Gpl3Rule := Rule([[GplName, Version3]], "GPL-3.0")
  const Gpl2Rule := Rule([[GplName, Version2]], "GPL-2.0")
  const GplRule := Rule([[GplName]], "GPL")
  const Bsd3Rule := Rule([[BsdPhrase, ThreeClause], [BsdPhrase, ThreeClauseWords]], "BSD-3-Clause")
  const Bsd2Rule := Rule([[BsdPhrase, TwoClause], [BsdPhrase, TwoClauseWords]], "BSD-2-Clause")
  const BsdRule := Rule([[BsdPhrase]], "BSD")
  const IscRule := Rule([[IscPhrase]], "ISC")
  const MplRule := Rule([[MozillaPhrase]], "MPL-2.0")
  const UnlicenseRule := Rule([[UnlicensePhrase]], "Unlicense")

  const OtherRules: seq<Rule> := [IscRule, MplRule, UnlicenseRule]
  const BsdRules: seq<Rule> := [Bsd3Rule] + ([Bsd2Rule] + ([BsdRule] + OtherRules))
  const GplRules: seq<Rule> := [Gpl3Rule] + ([Gpl2Rule] + ([GplRule] + BsdRules))
  const ClassifierRules: seq<Rule> := [MitRule] + ([ApacheRule] + GplRules)

  lemma AnyOne(c: string, a: string)
    ensures AnyAlternative(c, [[a]]) <==> Contains(c, a)
  {
    assert [[a]][1..] == [];
    assert [a][1..] == [];
    assert AllOccur(c, [a]) <==> Contains(c, a) && AllOccur(c, []);
    assert AnyAlternative(c, [[a]]) <==> AllOccur(c, [a]) || AnyAlternative(c, []);
  }

  lemma AnyBoth(c: string, a: string, b: string)
    ensures AnyAlternative(c, [[a, b]]) <==> Contains(c, a) && Contains(c, b)
  {
    assert [[a, b]][1..] == [];
    assert [a, b][1..] == [b];
    assert [b][1..] == [];
    assert AllOccur(c, [b]) <==> Contains(c, b) && AllOccur(c, []);
    assert AllOccur(c, [a, b]) <==> Contains(c, a) && AllOccur(c, [b]);
    assert AnyAlternative(c, [[a, b]]) <==> AllOccur(c, [a, b]) || AnyAlternative(c, []);
  }

  lemma AnyEither(c: string, a: string, b: string)
    ensures AnyAlternative(c, [[a], [b]]) <==> Contains(c, a) || Contains(c, b)
  {
    assert [[a], [b]][1..] == [[b]];
    AnyOne(c, a);
    AnyOne(c, b);
    assert [a][1..] == [];
  }

  lemma AnyBothOfEither(c: string, a: string, b: string, d: string)
    ensures AnyAlternative(c, [[a, b], [a, d]]) <==> Contains(c, a) && (Contains(c, b) || Contains(c, d))
  {
    assert [[a, b], [a, d]][1..] == [[a, d]];
    AnyBoth(c, a, b);
    AnyBoth(c, a, d);
    assert [[a, d]][1..] == [];
  }

  lemma FirstFiringCons(r: Rule, rest: seq<Rule>, c: string)
    ensures FirstFiring([r] + rest, c) ==
              if AnyAlternative(c, r.alternatives) then Some(r.result) else FirstFiring(rest, c)
  {
    assert ([r] + rest)[1..] == rest;
  }

  lemma OtherRulesFire(c: string)
    ensures FirstFiring(OtherRules, c) ==
              if Contains(c, IscPhrase) then Some("ISC")
              else if Contains(c, MozillaPhrase) then Some("MPL-2.0")
              else if Contains(c, UnlicensePhrase) then Some("Unlicense")
              else None
  {
    AnyOne(c, IscPhrase);
    AnyOne(c, MozillaPhrase);
    AnyOne(c, UnlicensePhrase);
    FirstFiringCons(IscRule, [MplRule, UnlicenseRule], c);
    FirstFiringCons(MplRule, [UnlicenseRule], c);
    FirstFiringCons(UnlicenseRule, [], c);
  }

  lemma BsdRulesFire(c: string)
    ensures FirstFiring(BsdRules, c) ==
              if Contains(c, BsdPhrase) then
                if Contains(c, ThreeClause) || Contains(c, ThreeClauseWords) then Some("BSD-3-Clause")
                else if Contains(c, TwoClause) || Contains(c, TwoClauseWords) then Some("BSD-2-Clause")
                else Some("BSD")
              else FirstFiring(OtherRules, c)
  {
    AnyBothOfEither(c, BsdPhrase, ThreeClause, ThreeClauseWords);
    AnyBothOfEither(c, BsdPhrase, TwoClause, TwoClauseWords);
    AnyOne(c, BsdPhrase);
    FirstFiringCons(Bsd3Rule, [Bsd2Rule] + ([BsdRule] + OtherRules), c);
    FirstFiringCons(Bsd2Rule, [BsdRule] + OtherRules, c);
    FirstFiringCons(BsdRule, OtherRules, c);
  }

  lemma GplRulesFire(c: string)
    ensures FirstFiring(GplRules, c) ==
              if Contains(c, GplName) then
                if Contains(c, Version3) then Some("GPL-3.0")
                else if Contains(c, Version2) then Some("GPL-2.0")
                else Some("GPL")
              else FirstFiring(BsdRules, c)
  {
    AnyBoth(c, GplName, Version3);
    AnyBoth(c, GplName, Version2);
    AnyOne(c, GplName);
    FirstFiringCons(Gpl3Rule, [Gpl2Rule] + ([GplRule] + BsdRules), c);
    FirstFiringCons(Gpl2Rule, [GplRule] + BsdRules, c);
    FirstFiringCons(GplRule, BsdRules, c);
  }

  /** The nested tests of the classifier are the flat rule table, tried in order. */
  lemma ClassifyFollowsRuleTable(c: string)
    ensures Classify(c) == FirstFiring(ClassifierRules, c)
  {
    AnyEither(c, MitPhrase, GrantPhrase);
    AnyBoth(c, ApachePhrase, Version20);
    FirstFiringCons(MitRule, [ApacheRule] + GplRules, c);
    FirstFiringCons(ApacheRule, GplRules, c);
    GplRulesFire(c);
    BsdRulesFire(c);
    OtherRulesFire(c);
  }

  // ----- Commit summaries and contributors -----------------------------------

  /** `message.split('\n')[0]`. */
  function FirstLine(message: string): (r: string)
    ensures r <= message
    ensures '\n' !in r
    ensures r == message || message[|r|] == '\n'
    decreases |message|
  {
    if message == [] || message[0] == '\n' then []
    else [message[0]] + FirstLine(message[1..])
  }

  const SummaryLimit: nat := 80

  /** `message.split('\n')[0][:80]`. */
  function CommitSummary(message: string): (r: string)
    ensures |r| <= SummaryLimit
    ensures r <= message
    ensures '\n' !in r
    ensures |r| < SummaryLimit ==> r == message || message[|r|] == '\n'
  {
    var line := FirstLine(message);
    var r := Take(line, SummaryLimit);
    assert forall c :: c in r ==> c in line;
    r
  }

  const RecentCommitLimit: nat := 5

  /** `iter_commits(max_count=5)`, summarised: newest first. */
  function RecentCommits(messages: seq<string>): (r: seq<string>)
    ensures |r| == if |messages| < RecentCommitLimit then |messages| else RecentCommitLimit
    ensures forall i :: 0 <= i < |r| ==> r[i] == CommitSummary(messages[i])
  {
    var n := if |messages| < RecentCommitLimit then |messages| else RecentCommitLimit;
    seq(n, i requires 0 <= i < n => CommitSummary(messages[i]))
  }

  predicate Distinct(s: seq<string>) {
    forall i, j :: 0 <= i < j < |s| ==> s[i] != s[j]
  }

  /** The names occurring in `s`, without order or repeats. */
  function NameSet(s: seq<string>): set<string> {
    set x | x in s
  }

  /** A sequence without repeats has as many entries as distinct names. */
  lemma {:induction false} DistinctCount(s: seq<string>)
    requires Distinct(s)
    ensures |NameSet(s)| == |s|
    decreases |s|
  {
    if s != [] {
      var init := s[..|s| - 1];
      assert Distinct(init);
      DistinctCount(init);
      assert s == init + [s[|s| - 1]];
      assert NameSet(s) == NameSet(init) + {s[|s| - 1]};
    }
  }

  /** The distinct names of `s`, each at its first occurrence. Python's
      `list(set(...))` fixes no order; this one is a stand-in for it. */
  function Dedupe(s: seq<string>): (r: seq<string>)
    ensures Distinct(r)
    ensures forall x :: x in r <==> x in s
    ensures |r| == |NameSet(s)|
    ensures |r| <= |s|
    decreases |s|
  {
    var r := DedupeOrder(s);
    DistinctCount(r);
    assert NameSet(r) == NameSet(s);
    r
  }

  function DedupeOrder(s: seq<string>): (r: seq<string>)
    ensures Distinct(r)
    ensures forall x :: x in r <==> x in s
    ensures |r| <= |s|
    decreases |s|
  {
    if s == [] then []
    else
      var rest := DedupeOrder(s[..|s| - 1]);
      var last := s[|s| - 1];
      assert forall x :: x in s <==> x in s[..|s| - 1] || x == last by {
        assert s == s[..|s| - 1] + [last];
      }
      if last in rest then rest else rest + [last]
  }

  const CommitScanLimit: nat := 100
  const ContributorLimit: nat := 10

  /** The contributor list: distinct authors of the last 100 commits, as many
      as there are up to a cap of 10. */
  function Contributors(authors: seq<string>): (r: seq<string>)
    ensures var n := |NameSet(Take(authors, CommitScanLimit))|;
            |r| == if n < ContributorLimit then n else ContributorLimit
    ensures Distinct(r)
    ensures forall x :: x in r ==> x in Take(authors, CommitScanLimit)
    ensures r <= Dedupe(Take(authors, CommitScanLimit))
  {
    var d := Dedupe(Take(authors, CommitScanLimit));
    var r := Take(d, ContributorLimit);
    assert forall i, j :: 0 <= i < j < |r| ==> r[i] == d[i] && r[j] == d[j];
    assert forall x :: x in r ==> x in d;
    r
  }

  /** Below the cap, every author in the scanned commits is listed. */
  lemma FewContributorsAllListed(authors: seq<string>)
    requires |NameSet(Take(authors, CommitScanLimit))| <= ContributorLimit
    ensures forall x :: x in Take(authors, CommitScanLimit) ==> x in Contributors(authors)
  {
  }

  // ----- Suggested context ---------------------------------------------------

  /** A Python string is truthy when it is present and non-empty. */
  predicate Truthy(s: Option<string>) {
    s.Some? && s.value != []
  }

  const AcknowledgmentLimit: nat := 5

  /** `[f"@{c}" for c in contributors[:5]]`. */
  function Acknowledgments(contributors: seq<string>): (r: seq<string>)
    ensures |r| == if |contributors| < AcknowledgmentLimit then |contributors| else AcknowledgmentLimit
    ensures forall i :: 0 <= i < |r| ==> r[i] == "@" + contributors[i]
  {
    var n := if |contributors| < AcknowledgmentLimit then |contributors| else AcknowledgmentLimit;
    seq(n, i requires 0 <= i < n => "@" + contributors[i])
  }

  /** Each acknowledgment gives back its contributor once the `@` is dropped. */
  lemma AcknowledgmentsRecoverNames(contributors: seq<string>)
    ensures var a := Acknowledgments(contributors);
            forall i :: 0 <= i < |a| ==> a[i][0] == '@' && a[i][1..] == contributors[i]
  {
    var a := Acknowledgments(contributors);
    forall i | 0 <= i < |a|
      ensures a[i][0] == '@' && a[i][1..] == contributors[i]
    {
      assert a[i] == "@" + contributors[i];
    }
  }

  // The keys the suggestion may set.
  const ProjectNameKey: string := "project_name"
  const UsernameKey: string := "github_username"
  const DescriptionKey: string := "project_description"
  const LicenseKey: string := "license"
  const AcknowledgmentsKey: string := "acknowledgments"
  const LanguagesKey: string := "languages"

  const SuggestedKeys: set<string> :=
    {ProjectNameKey, UsernameKey, DescriptionKey, LicenseKey, AcknowledgmentsKey, LanguagesKey}

  /** Whether `get_suggested_context` sets `key`: the field behind it is truthy. */
  predicate Suggests(info: GitInfo, key: string) {
    if key == ProjectNameKey then Truthy(info.projectName)
    else if key == UsernameKey then Truthy(info.githubUsername)
    else if key == DescriptionKey then Truthy(info.description)
    else if key == LicenseKey then Truthy(info.licenseType)
    else if key == AcknowledgmentsKey then info.contributors != []
    else key == LanguagesKey && info.languages != []
  }

  /** The value set under `key` when it is set. */
  function Suggestion(info: GitInfo, key: string): Value {
    if key == ProjectNameKey then Str(if info.projectName.Some? then info.projectName.value else "")
    else if key == UsernameKey then Str(if info.githubUsername.Some? then info.githubUsername.value else "")
    else if key == DescriptionKey then Str(if info.description.Some? then info.description.value else "")
    else if key == LicenseKey then Str(if info.licenseType.Some? then info.licenseType.value else "")
    else if key == AcknowledgmentsKey then Items(Acknowledgments(info.contributors))
    else Items(info.languages)
  }

  /** `get_suggested_context(git_info, project_type)`; the project type is
      accepted and not used. */
  function GetSuggestedContext(info: GitInfo, projectType: string): (r: Context)
    ensures r.Keys <= SuggestedKeys
    ensures ProjectNameKey in r <==> Truthy(info.projectName)
    ensures UsernameKey in r <==> Truthy(info.githubUsername)
    ensures DescriptionKey in r <==> Truthy(info.description)
    ensures LicenseKey in r <==> Truthy(info.licenseType)
    ensures AcknowledgmentsKey in r <==> info.contributors != []
    ensures LanguagesKey in r <==> info.languages != []
    ensures ProjectNameKey in r ==> r[ProjectNameKey] == Str(info.projectName.value)
    ensures UsernameKey in r ==> r[UsernameKey] == Str(info.githubUsername.value)
    ensures DescriptionKey in r ==> r[DescriptionKey] == Str(info.description.value)
    ensures LicenseKey in r ==> r[LicenseKey] == Str(info.licenseType.value)
    ensures AcknowledgmentsKey in r ==> r[AcknowledgmentsKey] == Items(Acknowledgments(info.contributors))
    ensures LanguagesKey in r ==> r[LanguagesKey] == Items(info.languages)
  {
    map key | key in SuggestedKeys && Suggests(info, key) :: Suggestion(info, key)
  }

  /** The suggestion never pre-empts the table of contents the composer adds. */
  lemma SuggestedContextLeavesTocFree(info: GitInfo, projectType: string)
    ensures TocKey !in GetSuggestedContext(info, projectType)
  {
  }

  // ----- Classifier results against the license catalog ----------------------

  /** A classifier result that is a catalog key keeps its name on the badge. */
  lemma CatalogResultKeepsName(x: string)
    requires x in ClassifierResults && x in Licenses.Licenses
    ensures Licenses.GetLicenseInfo(x) == Some(Licenses.Entry(Licenses.Licenses[x]))
    ensures Licenses.GetLicenseBadgeName(x) == x
  {
    Licenses.LicenseKeysAreIds(x);
    Licenses.NamesNormalizeToThemselves(Licenses.Licenses[x]);
    Licenses.SpdxIdIsKey(x);
  }

  /** Four classifier results are not catalog keys. */
  lemma ResultsOutsideCatalog()
    ensures forall x :: x in ClassifierResults ==>
              (x !in Licenses.Licenses <==> x == "GPL-2.0" || x == "GPL" || x == "BSD-2-Clause" || x == "BSD")
  {
  }

  /** How the alias table treats the four classifier results outside the
      catalog: the bare names are aliases of the newest version, the versioned
      ones are not aliases at all. */
  lemma OutsideNamesNormalize()
    ensures Licenses.Normalize("GPL") == "GPL-3.0"
    ensures Licenses.Normalize("GPL-2.0") == "GPL-2.0"
    ensures Licenses.Normalize("BSD") == "BSD-3-Clause"
    ensures Licenses.Normalize("BSD-2-Clause") == "BSD-2-Clause"
  {
    assert Lower("GPL") == "gpl";
    assert Lower("GPL-2.0") == "gpl-2.0";
    assert Lower("BSD") == "bsd";
    assert Lower("BSD-2-Clause") == "bsd-2-clause";
  }

  /** The bare GPL name resolves, through the alias table, to the newest
      version in the catalog. */
  lemma GplResolvesToNewest()
    ensures Licenses.GetLicenseBadgeName("GPL") == "GPL-3.0"
  {
    OutsideNamesNormalize();
    Licenses.SpdxIdIsKey("GPL-3.0");
  }

  /** So does the bare BSD name. */
  lemma BsdResolvesToNewest()
    ensures Licenses.GetLicenseBadgeName("BSD") == "BSD-3-Clause"
  {
    OutsideNamesNormalize();
    Licenses.SpdxIdIsKey("BSD-3-Clause");
  }

  lemma Gpl2Absent()
    ensures Licenses.Normalize("GPL-2.0") !in Licenses.Licenses
  {
    OutsideNamesNormalize();
  }

  lemma Bsd2Absent()
    ensures Licenses.Normalize("BSD-2-Clause") !in Licenses.Licenses
  {
    OutsideNamesNormalize();
  }

  /** The older GPL version the classifier can name has no catalog entry and
      passes through to the badge unchanged. */
  lemma Gpl2Unknown()
    ensures Licenses.GetLicenseInfo("GPL-2.0").None?
    ensures Licenses.GetLicenseBadgeName("GPL-2.0") == "GPL-2.0"
  {
    Gpl2Absent();
  }

  /** Likewise the two-clause BSD license. */
  lemma Bsd2Unknown()
    ensures Licenses.GetLicenseInfo("BSD-2-Clause").None?
    ensures Licenses.GetLicenseBadgeName("BSD-2-Clause") == "BSD-2-Clause"
  {
    Bsd2Absent();
  }
}
