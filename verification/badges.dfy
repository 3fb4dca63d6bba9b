/** Badge generation: markdown for one badge, the shields.io URL-template
    catalog with placeholder filling ("missing key means no badge"), presets,
    the order-preserving batch builder, and the custom-badge escaping. */
module Badges {
  import opened Base
  import opened Text
  import opened Placeholders

  datatype Badge = Badge(name: string, url: string, link: Option<string>, alt: Option<string>)

  /** `self.alt or self.name`. */
  function AltText(b: Badge): string {
    if b.alt.Some? && b.alt.value != "" then b.alt.value else b.name
  }

  /** `if self.link:` — a link that is absent or empty counts as none. */
  predicate HasLink(b: Badge) {
    b.link.Some? && b.link.value != ""
  }

  function Image(alt: string, url: string): string {
    "![" + alt + "](" + url + ")"
  }

  /** `Badge.to_markdown`. The alt text, the URL and the link can each be read
      back from a fixed place, found from the lengths of the fields before it. */
  function ToMarkdown(b: Badge): (r: string)
    ensures |r| >= 5 && r[|r| - 1] == ')'
    ensures HasLink(b) ==> r[0] == '['
    ensures !HasLink(b) ==> r[..2] == "!["
    ensures !HasLink(b) ==> ImageAt(r, 0, AltText(b), b.url) && |r| == ImageLength(AltText(b), b.url)
    ensures HasLink(b) ==>
              var k := 1 + ImageLength(AltText(b), b.url);
              && |r| == k + |b.link.value| + 3
              && ImageAt(r, 1, AltText(b), b.url)
              && r[k..k + 2] == "](" && r[k + 2..|r| - 1] == b.link.value
  {
    var a := AltText(b);
    ImageReadsBack(a, b.url);
    if HasLink(b) then
      var r := "[" + Image(a, b.url) + "](" + b.link.value + ")";
      assert r[1..1 + ImageLength(a, b.url)] == Image(a, b.url);
      r
    else Image(a, b.url)
  }

  /** `![alt](url)` has this many characters. */
  function ImageLength(alt: string, url: string): nat {
    |alt| + |url| + 5
  }

  /** `s` holds `![alt](url)` starting at index `i`: each field sits where its
      delimiters put it. */
  predicate ImageAt(s: string, i: nat, alt: string, url: string) {
    var a := i + 2 + |alt|;
    && i + ImageLength(alt, url) <= |s|
    && s[i..i + 2] == "![" && s[i + 2..a] == alt
    && s[a..a + 2] == "](" && s[a + 2..a + 2 + |url|] == url
    && s[a + 2 + |url|] == ')'
  }

  lemma ImageReadsBack(alt: string, url: string)
    ensures |Image(alt, url)| == ImageLength(alt, url)
    ensures ImageAt(Image(alt, url), 0, alt, url)
    ensures forall p, q :: ImageAt(p + Image(alt, url) + q, |p|, alt, url)
  {
    var m := Image(alt, url);
    var a := 2 + |alt|;
    assert m[..2] == "![" && m[2..a] == alt && m[a..a + 2] == "](" && m[a + 2..a + 2 + |url|] == url;
    forall p, q
      ensures ImageAt(p + m + q, |p|, alt, url)
    {
      var s := p + m + q;
      assert s[|p|..|p| + |m|] == m;
      assert s[|p| + 2..|p| + a] == m[2..a];
      assert s[|p|..|p| + 2] == m[..2];
      assert s[|p| + a..|p| + a + 2] == m[a..a + 2];
      assert s[|p| + a + 2..|p| + a + 2 + |url|] == m[a + 2..a + 2 + |url|];
    }
  }

  /** A linked badge is its unlinked image wrapped in a markdown link. */
  lemma LinkWrapsImage(b: Badge)
    requires HasLink(b)
    ensures ToMarkdown(b) == "[" + ToMarkdown(b.(link := None)) + "](" + b.link.value + ")"
  {
  }

  /** An empty link is no link; a missing or empty alt falls back to the name. */
  lemma MarkdownFallbacks(b: Badge)
    ensures ToMarkdown(b.(link := Some(""))) == ToMarkdown(b.(link := None))
    ensures ToMarkdown(b.(alt := None)) == ToMarkdown(b.(alt := Some("")))
    ensures ToMarkdown(b.(alt := None)) == ToMarkdown(b.(alt := Some(b.name)))
  {
    var n := b.(link := None);
    assert !HasLink(n) && !HasLink(b.(link := Some("")));
    assert ToMarkdown(b.(link := Some(""))) == Image(AltText(n), n.url);
    assert AltText(b.(alt := None)) == AltText(b.(alt := Some(""))) == AltText(b.(alt := Some(b.name)));
  }

  /** One entry of `BADGE_TEMPLATES`: the display name, the URL template and
      the optional link template. */
  datatype BadgeTemplate = BadgeTemplate(name: string, url: Pattern, link: Option<Pattern>)

  const Shields: string := "https://img.shields.io/"
  const GitHub: string := "https://github.com/"

  /** `<prefix>{username}/{repo}<suffix>`. */
  function UserRepo(prefix: string, suffix: string): (r: Pattern)
    ensures Keys(r) == {"username", "repo"}
  {
    assert IsKey("username") && IsKey("repo");
    var ps := [Lit(prefix), Hole("username"), Lit("/"), Hole("repo"), Lit(suffix)];
    assert ps[1] == Hole("username") && ps[3] == Hole("repo");
    ps
  }

  /** `<prefix>{key}<suffix>`. */
  function OneKey(prefix: string, key: Key, suffix: string): (r: Pattern)
    ensures Keys(r) == {key}
  {
    var ps := [Lit(prefix), Hole(key), Lit(suffix)];
    assert ps[1] == Hole(key);
    ps
  }

  /** Text with no placeholder. */
  function Fixed(text: string): (r: Pattern)
    ensures Keys(r) == {}
  {
    [Lit(text)]
  }

  const LicenseKey: Key := "license"
  const VersionKey: Key := "version"
  const PackageKey: Key := "package"
  const StatusKey: Key := "status"
  const DocsUrlKey: Key := "docs_url"
  const ProjectKey: Key := "project"
  const HandleKey: Key := "handle"
  const ServerIdKey: Key := "server_id"
  const InviteLinkKey: Key := "invite_link"
  const PlatformsKey: Key := "platforms"

  /** The only catalog URL that needs a `workflow` argument. */
  const GitHubActionsUrl: Pattern :=
    assert IsKey("username") && IsKey("repo") && IsKey("workflow");
    [Lit(Shields + "github/actions/workflow/status/"), Hole("username"), Lit("/"), Hole("repo"), Lit("/"), Hole("workflow")]

  const CustomUrl: Pattern :=
    assert IsKey("label") && IsKey("message") && IsKey("color");
    [Lit(Shields + "badge/"), Hole("label"), Lit("-"), Hole("message"), Lit("-"), Hole("color")]

  const MaintenanceUrl: Pattern :=
    assert IsKey("status") && IsKey("year");
    [Lit(Shields + "maintenance/"), Hole("status"), Lit("/"), Hole("year")]

  /** The entries of `BADGE_TEMPLATES`, one per badge type. */
  datatype BadgeKind =
    | License | LicenseGitHub | Version | PyPIVersion | NpmVersion
    | GitHubStars | GitHubForks | GitHubIssues | GitHubPulls | GitHubLastCommit
    | GitHubContributors | GitHubRelease | GitHubActions
    | Travis | CircleCI | Codecov | CodeClimate
    | PythonVersion | PyPIDownloads | NpmDownloads | NodeVersion
    | Docs | ReadTheDocs | Twitter | Discord
    | Custom | Maintained | Maintenance | Platform
    | MadeWithPython | MadeWithJavaScript | MadeWithTypeScript | MadeWithRust | MadeWithGo

  /** The keys of `BADGE_TEMPLATES`. */
  const BadgeTypes: map<string, BadgeKind> := map[
    "license" := License,
    "license_github" := LicenseGitHub,
    "version" := Version,
    "pypi_version" := PyPIVersion,
    "npm_version" := NpmVersion,
    "github_stars" := GitHubStars,
    "github_forks" := GitHubForks,
    "github_issues" := GitHubIssues,
    "github_prs" := GitHubPulls,
    "github_last_commit" := GitHubLastCommit,
    "github_contributors" := GitHubContributors,
    "github_release" := GitHubRelease,
    "github_actions" := GitHubActions,
    "travis_ci" := Travis,
    "circleci" := CircleCI,
    "codecov" := Codecov,
    "codeclimate" := CodeClimate,
    "python_version" := PythonVersion,
    "pypi_downloads" := PyPIDownloads,
    "npm_downloads" := NpmDownloads,
    "node_version" := NodeVersion,
    "docs" := Docs,
    "readthedocs" := ReadTheDocs,
    "twitter" := Twitter,
    "discord" := Discord,
    "custom" := Custom,
    "maintained" := Maintained,
    "maintenance_status" := Maintenance,
    "platform" := Platform,
    "made_with_python" := MadeWithPython,
    "made_with_javascript" := MadeWithJavaScript,
    "made_with_typescript" := MadeWithTypeScript,
    "made_with_rust" := MadeWithRust,
    "made_with_go" := MadeWithGo
  ]

  /** The values of `BADGE_TEMPLATES`. */
  function TemplateOf(k: BadgeKind): BadgeTemplate {
    match k
    case License => BadgeTemplate("License", OneKey(Shields + "badge/license-", LicenseKey, "-blue.svg"), Some(Fixed("#license")))
    case LicenseGitHub => BadgeTemplate("License", UserRepo(Shields + "github/license/", ""), Some(UserRepo(GitHub, "/blob/main/LICENSE")))
    case Version => BadgeTemplate("Version", OneKey(Shields + "badge/version-", VersionKey, "-green.svg"), None)
    case PyPIVersion => BadgeTemplate("PyPI Version", OneKey(Shields + "pypi/v/", PackageKey, ""), Some(OneKey("https://pypi.org/project/", PackageKey, "/")))
    case NpmVersion => BadgeTemplate("npm Version", OneKey(Shields + "npm/v/", PackageKey, ""), Some(OneKey("https://www.npmjs.com/package/", PackageKey, "")))
    case GitHubStars => BadgeTemplate("GitHub Stars", UserRepo(Shields + "github/stars/", ""), Some(UserRepo(GitHub, "/stargazers")))
    case GitHubForks => BadgeTemplate("GitHub Forks", UserRepo(Shields + "github/forks/", ""), Some(UserRepo(GitHub, "/network/members")))
    case GitHubIssues => BadgeTemplate("GitHub Issues", UserRepo(Shields + "github/issues/", ""), Some(UserRepo(GitHub, "/issues")))
    case GitHubPulls => BadgeTemplate("GitHub Pull Requests", UserRepo(Shields + "github/issues-pr/", ""), Some(UserRepo(GitHub, "/pulls")))
    case GitHubLastCommit => BadgeTemplate("Last Commit", UserRepo(Shields + "github/last-commit/", ""), Some(UserRepo(GitHub, "/commits")))
    case GitHubContributors => BadgeTemplate("Contributors", UserRepo(Shields + "github/contributors/", ""), Some(UserRepo(GitHub, "/graphs/contributors")))
    case GitHubRelease => BadgeTemplate("Latest Release", UserRepo(Shields + "github/v/release/", ""), Some(UserRepo(GitHub, "/releases/latest")))
    case GitHubActions => BadgeTemplate("GitHub Actions", GitHubActionsUrl, Some(UserRepo(GitHub, "/actions")))
    case Travis => BadgeTemplate("Travis CI", UserRepo(Shields + "travis/com/", ""), Some(UserRepo("https://travis-ci.com/", "")))
    case CircleCI => BadgeTemplate("CircleCI", UserRepo(Shields + "circleci/build/github/", ""), Some(UserRepo("https://circleci.com/gh/", "")))
    case Codecov => BadgeTemplate("Code Coverage", UserRepo(Shields + "codecov/c/github/", ""), Some(UserRepo("https://codecov.io/gh/", "")))
    case CodeClimate => BadgeTemplate("Code Climate", UserRepo(Shields + "codeclimate/maintainability/", ""), Some(UserRepo("https://codeclimate.com/github/", "")))
    case PythonVersion => BadgeTemplate("Python Version", OneKey(Shields + "pypi/pyversions/", PackageKey, ""), Some(OneKey("https://pypi.org/project/", PackageKey, "/")))
    case PyPIDownloads => BadgeTemplate("PyPI Downloads", OneKey(Shields + "pypi/dm/", PackageKey, ""), Some(OneKey("https://pypi.org/project/", PackageKey, "/")))
    case NpmDownloads => BadgeTemplate("npm Downloads", OneKey(Shields + "npm/dm/", PackageKey, ""), Some(OneKey("https://www.npmjs.com/package/", PackageKey, "")))
    case NodeVersion => BadgeTemplate("Node Version", OneKey(Shields + "node/v/", PackageKey, ""), None)
    case Docs => BadgeTemplate("Documentation", OneKey(Shields + "badge/docs-", StatusKey, "-blue.svg"), Some(OneKey("", DocsUrlKey, "")))
    case ReadTheDocs => BadgeTemplate("Read the Docs", OneKey(Shields + "readthedocs/", ProjectKey, ""), Some(OneKey("https://", ProjectKey, ".readthedocs.io/")))
    case Twitter => BadgeTemplate("Twitter Follow", OneKey(Shields + "twitter/follow/", HandleKey, "?style=social"), Some(OneKey("https://twitter.com/", HandleKey, "")))
    case Discord => BadgeTemplate("Discord", OneKey(Shields + "discord/", ServerIdKey, ""), Some(OneKey("", InviteLinkKey, "")))
    case Custom => BadgeTemplate("Custom", CustomUrl, None)
    case Maintained => BadgeTemplate("Maintained", Fixed(Shields + "badge/maintained-yes-green.svg"), None)
    case Maintenance => BadgeTemplate("Maintenance", MaintenanceUrl, None)
    case Platform => BadgeTemplate("Platform", OneKey(Shields + "badge/platform-", PlatformsKey, "-lightgrey"), None)
    case MadeWithPython => BadgeTemplate("Made with Python", Fixed(Shields + "badge/Made%20with-Python-1f425f.svg"), Some(Fixed("https://www.python.org/")))
    case MadeWithJavaScript => BadgeTemplate("Made with JavaScript", Fixed(Shields + "badge/Made%20with-JavaScript-f7df1e.svg"), Some(Fixed("https://www.javascript.com/")))
    case MadeWithTypeScript => BadgeTemplate("Made with TypeScript", Fixed(Shields + "badge/Made%20with-TypeScript-3178c6.svg"), Some(Fixed("https://www.typescriptlang.org/")))
    case MadeWithRust => BadgeTemplate("Made with Rust", Fixed(Shields + "badge/Made%20with-Rust-dea584.svg"), Some(Fixed("https://www.rust-lang.org/")))
    case MadeWithGo => BadgeTemplate("Made with Go", Fixed(Shields + "badge/Made%20with-Go-00add8.svg"), Some(Fixed("https://go.dev/")))
  }

  /** `BADGE_TEMPLATES.get(badge_type)`. */
  function LookupTemplate(badgeType: string): (r: Option<BadgeTemplate>)
    ensures r.Some? <==> badgeType in BadgeTypes
  {
    if badgeType in BadgeTypes then Some(TemplateOf(BadgeTypes[badgeType])) else None
  }

  const PythonLibraryPreset: seq<string> :=
    ["license_github", "pypi_version", "python_version", "pypi_downloads", "github_actions", "codecov"]
  const PythonCliPreset: seq<string> :=
    ["license_github", "pypi_version", "python_version", "github_stars", "github_last_commit"]
  const NodePackagePreset: seq<string> :=
    ["license_github", "npm_version", "npm_downloads", "node_version", "github_actions"]
  const WebAppPreset: seq<string> :=
    ["license_github", "github_stars", "github_issues", "github_last_commit", "github_actions"]
  const ApiPreset: seq<string> :=
    ["license_github", "github_actions", "codecov", "github_issues"]
  const GitHubStandardPreset: seq<string> :=
    ["license_github", "github_stars", "github_forks", "github_issues", "github_last_commit"]

  /** `BADGE_PRESETS`. */
  const BadgePresets: map<string, seq<string>> := map[
    "minimal" := ["license"],
    "python_library" := PythonLibraryPreset,
    "python_cli" := PythonCliPreset,
    "node_package" := NodePackagePreset,
    "web_app" := WebAppPreset,
    "api" := ApiPreset,
    "github_standard" := GitHubStandardPreset
  ]

  /** `if template.get("link")`: the template has a non-empty link. */
  predicate HasLinkTemplate(t: BadgeTemplate) {
    t.link.Some? && Unparse(t.link.value) != ""
  }

  /** The badge a template gives for `kw` (lines after the lookup in
      `generate_badge`): the URL is formatted first, then a non-empty link;
      a `KeyError` from either means no badge. */
  function FromTemplate(t: BadgeTemplate, kw: map<string, string>): (r: Option<Badge>)
    ensures r.Some? <==> Keys(t.url) <= kw.Keys && (HasLinkTemplate(t) ==> Keys(t.link.value) <= kw.Keys)
    ensures r.Some? ==>
              && r.value.name == t.name
              && r.value.url == Instantiate(t.url, kw).text
              && (r.value.link.None? <==> !HasLinkTemplate(t))
              && (r.value.link.Some? ==> r.value.link.value == Instantiate(t.link.value, kw).text)
              && r.value.alt == None
  {
    FormatUnparse(t.url, kw);
    match Format(Unparse(t.url), kw)
    case Formatted(url) =>
      if HasLinkTemplate(t) then
        FormatUnparse(t.link.value, kw);
        match Format(Unparse(t.link.value), kw)
        case Formatted(link) => Some(Badge(t.name, url, Some(link), None))
        case _ => None
      else Some(Badge(t.name, url, None, None))
    case _ => None
  }

  /** `generate_badge(badge_type, **kwargs)`. */
  function GenerateBadge(badgeType: string, kw: map<string, string>): (r: Option<Badge>)
    ensures badgeType !in BadgeTypes ==> r == None
    ensures badgeType in BadgeTypes ==> r == FromTemplate(TemplateOf(BadgeTypes[badgeType]), kw)
  {
    match LookupTemplate(badgeType)
    case None => None
    case Some(t) => FromTemplate(t, kw)
  }

  /** Keyword arguments a template does not name make no difference. */
  lemma FromTemplateIgnoresExtraArguments(t: BadgeTemplate, kw: map<string, string>, kw': map<string, string>)
    requires var used := Keys(t.url) + (if t.link.Some? then Keys(t.link.value) else {});
             forall k :: k in used ==> (k in kw <==> k in kw') && (k in kw ==> kw[k] == kw'[k])
    ensures FromTemplate(t, kw) == FromTemplate(t, kw')
  {
    InstantiateLocal(t.url, kw, kw');
    if t.link.Some? {
      InstantiateLocal(t.link.value, kw, kw');
    }
  }

  lemma GitHubActionsIsCataloged()
    ensures "github_actions" in BadgeTypes && TemplateOf(BadgeTypes["github_actions"]).url == GitHubActionsUrl
  {
  }

  /** Without a `workflow` argument there is no GitHub Actions badge. */
  lemma GitHubActionsNeedsWorkflow(kw: map<string, string>)
    requires "workflow" !in kw
    ensures GenerateBadge("github_actions", kw) == None
  {
    GitHubActionsIsCataloged();
    assert GitHubActionsUrl[5] == Hole("workflow");
  }

  function BadgeFor(kw: map<string, string>): string -> Option<Badge> {
    (badgeType: string) => GenerateBadge(badgeType, kw)
  }

  /** `generate_badges(badge_types, **kwargs)`: the badges that could be built,
      in the order of their types. */
  function GenerateBadges(types: seq<string>, kw: map<string, string>): (r: seq<Badge>)
    ensures |r| <= |types|
    ensures forall b :: b in r <==> exists i :: 0 <= i < |types| && GenerateBadge(types[i], kw) == Some(b)
  {
    var f := BadgeFor(kw);
    assert forall i :: 0 <= i < |types| ==> f(types[i]) == GenerateBadge(types[i], kw);
    FilterMapMembers(f, types);
    FilterMap(f, types)
  }

  /** Each type contributes on its own, so relative order is kept. */
  lemma GenerateBadgesAppend(a: seq<string>, b: seq<string>, kw: map<string, string>)
    ensures GenerateBadges(a + b, kw) == GenerateBadges(a, kw) + GenerateBadges(b, kw)
  {
    FilterMapAppend(BadgeFor(kw), a, b);
  }

  predicate KnownTypes(types: seq<string>) {
    forall i :: 0 <= i < |types| ==> types[i] in BadgeTypes
  }

  lemma PythonPresetsKnown()
    ensures KnownTypes(PythonLibraryPreset) && KnownTypes(PythonCliPreset)
  {
  }

  lemma WebPresetsKnown()
    ensures KnownTypes(NodePackagePreset) && KnownTypes(WebAppPreset)
  {
  }

  lemma GitHubPresetsKnown()
    ensures KnownTypes(ApiPreset) && KnownTypes(GitHubStandardPreset) && KnownTypes(["license"])
  {
  }

  /** Every name in every preset is a catalog badge type. */
  lemma PresetsUseKnownTypes()
    ensures "minimal" in BadgePresets
    ensures forall p :: p in BadgePresets ==> KnownTypes(BadgePresets[p])
  {
    PythonPresetsKnown();
    WebPresetsKnown();
    GitHubPresetsKnown();
  }

  /** `BADGE_PRESETS.get(preset, BADGE_PRESETS["minimal"])`. */
  function PresetTypes(preset: string): (r: seq<string>)
    ensures preset in BadgePresets ==> r == BadgePresets[preset]
    ensures preset !in BadgePresets ==> r == BadgePresets["minimal"]
    ensures KnownTypes(r)
  {
    PresetsUseKnownTypes();
    if preset in BadgePresets then BadgePresets[preset] else BadgePresets["minimal"]
  }

  /** `generate_badges_from_preset(preset, **kwargs)`. */
  function GenerateBadgesFromPreset(preset: string, kw: map<string, string>): (r: seq<Badge>)
    ensures |r| <= |PresetTypes(preset)|
    ensures forall b :: b in r ==> exists i :: 0 <= i < |PresetTypes(preset)| && GenerateBadge(PresetTypes(preset)[i], kw) == Some(b)
    ensures forall i :: 0 <= i < |PresetTypes(preset)| && GenerateBadge(PresetTypes(preset)[i], kw).Some?
              ==> GenerateBadge(PresetTypes(preset)[i], kw).value in r
  {
    GenerateBadges(PresetTypes(preset), kw)
  }

  lemma UnknownPresetIsMinimal(preset: string, kw: map<string, string>)
    requires preset !in BadgePresets
    ensures GenerateBadgesFromPreset(preset, kw) == GenerateBadgesFromPreset("minimal", kw)
  {
  }

  function NotGitHubActions(badgeType: string): bool {
    badgeType != "github_actions"
  }

  /** Without a `workflow` argument, every preset gives exactly the badges it
      would give with `github_actions` struck from its list. */
  lemma PresetsDropGitHubActions(preset: string, kw: map<string, string>)
    requires "workflow" !in kw
    ensures GenerateBadgesFromPreset(preset, kw) == GenerateBadges(Filter(NotGitHubActions, PresetTypes(preset)), kw)
  {
    GitHubActionsNeedsWorkflow(kw);
    FilterMapSkip(BadgeFor(kw), NotGitHubActions, PresetTypes(preset));
  }

  /** `badges_to_markdown(badges, separator)`. */
  function BadgesToMarkdown(badges: seq<Badge>, sep: string := " "): (r: string)
    ensures badges == [] ==> r == ""
    ensures |badges| == 1 ==> r == ToMarkdown(badges[0])
  {
    Join(Map(ToMarkdown, badges), sep)
  }

  /** Two runs of badges are rendered separately and joined by one separator. */
  lemma BadgesToMarkdownAppend(a: seq<Badge>, b: seq<Badge>, sep: string)
    requires a != [] && b != []
    ensures BadgesToMarkdown(a + b, sep) == BadgesToMarkdown(a, sep) + sep + BadgesToMarkdown(b, sep)
  {
    MapAppend(ToMarkdown, a, b);
    JoinAppend(Map(ToMarkdown, a), Map(ToMarkdown, b), sep);
  }

  // ----- Custom badges -----------------------------------------------------

  /** `s.replace(" ", "%20").replace("-", "--")`. */
  function Escape(s: string): (r: string)
    ensures ' ' !in r
    ensures Count(r, '-') == 2 * Count(s, '-')
  {
    var spaced := ReplaceChar(s, ' ', "%20");
    EscapeDashes(s);
    ReplaceChar(spaced, '-', "--")
  }

  lemma {:induction false} EscapeDashes(s: string)
    ensures Count(ReplaceChar(ReplaceChar(s, ' ', "%20"), '-', "--"), '-') == 2 * Count(s, '-')
    ensures Count(ReplaceChar(s, ' ', "%20"), '-') == Count(s, '-')
    decreases |s|
  {
    if s != [] {
      EscapeDashes(s[1..]);
      var head := if s[0] == ' ' then "%20" else [s[0]];
      assert ReplaceChar(s, ' ', "%20") == head + ReplaceChar(s[1..], ' ', "%20");
      ReplaceCharAppend(head, ReplaceChar(s[1..], ' ', "%20"), '-', "--");
      CountAppend(head, ReplaceChar(s[1..], ' ', "%20"), '-');
      var dashed := ReplaceChar(head, '-', "--");
      CountAppend(dashed, ReplaceChar(ReplaceChar(s[1..], ' ', "%20"), '-', "--"), '-');
      if s[0] == ' ' {
        assert Count(head, '-') == 0;
        assert dashed == "%20";
        assert Count(dashed, '-') == 0;
      } else if s[0] == '-' {
        assert dashed == "--";
        assert Count(dashed, '-') == 2;
      } else {
        assert dashed == [s[0]];
      }
    }
  }

  lemma {:induction false} CountAppend(a: string, b: string, c: char)
    ensures Count(a + b, c) == Count(a, c) + Count(b, c)
    decreases |a|
  {
    if a == [] {
      assert a + b == b;
    } else {
      assert (a + b)[1..] == a[1..] + b;
      CountAppend(a[1..], b, c);
    }
  }

  /** How shields.io reads a static badge's label back, scanning left to right:
      `%20` and a single `_` are spaces, `--` is a dash and `__` an underscore. */
  function Unescape(s: string): string
    decreases |s|
  {
    if |s| >= 3 && s[..3] == "%20" then " " + Unescape(s[3..])
    else if |s| >= 2 && s[..2] == "--" then "-" + Unescape(s[2..])
    else if |s| >= 2 && s[..2] == "__" then "_" + Unescape(s[2..])
    else if s == [] then []
    else if s[0] == '_' then " " + Unescape(s[1..])
    else [s[0]] + Unescape(s[1..])
  }

  /** The encoding of one character. */
  function EscapeChar(c: char): string {
    if c == ' ' then "%20" else if c == '-' then "--" else [c]
  }

  lemma EscapeCons(s: string)
    requires s != []
    ensures Escape(s) == EscapeChar(s[0]) + Escape(s[1..])
  {
    var head := if s[0] == ' ' then "%20" else [s[0]];
    assert ReplaceChar(s, ' ', "%20") == head + ReplaceChar(s[1..], ' ', "%20");
    ReplaceCharAppend(head, ReplaceChar(s[1..], ' ', "%20"), '-', "--");
    if s[0] == ' ' {
      assert ReplaceChar(head, '-', "--") == "%20";
    } else if s[0] == '-' {
      assert ReplaceChar(head, '-', "--") == "--";
    } else {
      assert ReplaceChar(head, '-', "--") == [s[0]];
    }
  }

  lemma UnescapeCons(c: char, rest: string)
    requires c != '%' && c != '_'
    ensures Unescape(EscapeChar(c) + rest) == [c] + Unescape(rest)
  {
    var t := EscapeChar(c) + rest;
    if c == ' ' {
      assert t[..3] == "%20" && t[3..] == rest;
    } else if c == '-' {
      assert t[..2] == "--" && t[2..] == rest;
      assert !(|t| >= 3 && t[..3] == "%20") by {
        if |t| >= 3 { assert t[..3][0] == '-'; }
      }
    } else {
      assert t[0] == c && t[1..] == rest;
      assert !(|t| >= 3 && t[..3] == "%20") by {
        if |t| >= 3 { assert t[..3][0] == c; }
      }
      assert !(|t| >= 2 && t[..2] == "--") by {
        if |t| >= 2 { assert t[..2][0] == c; }
      }
      assert !(|t| >= 2 && t[..2] == "__") by {
        if |t| >= 2 { assert t[..2][0] == c; }
      }
    }
  }

  /** Escaping is undone by shields.io's reading for any text without `%` or `_`. */
  lemma {:induction false} UnescapeEscape(s: string)
    requires '%' !in s && '_' !in s
    ensures Unescape(Escape(s)) == s
    decreases |s|
  {
    if s != [] {
      EscapeCons(s);
      UnescapeCons(s[0], Escape(s[1..]));
      UnescapeEscape(s[1..]);
      assert s == [s[0]] + s[1..];
    }
  }

  /** With a `%` in the input that fails: a literal `%20` and a space escape alike. */
  lemma EscapeConflatesPercent()
    ensures Escape("%20") == Escape(" ")
  {
    EscapeCons("%20");
    EscapeCons("20");
    EscapeCons("0");
    EscapeCons(" ");
    assert "%20"[1..] == "20" && "20"[1..] == "0" && "0"[1..] == "" && " "[1..] == "";
  }

  /** Escaping leaves text with no space and no dash as it is. */
  lemma {:induction false} EscapeKeeps(s: string)
    requires ' ' !in s && '-' !in s
    ensures Escape(s) == s
    decreases |s|
  {
    if s != [] {
      EscapeCons(s);
      EscapeKeeps(s[1..]);
      assert s == [s[0]] + s[1..];
    }
  }

  /** Text that neither escape touches and that shields.io reads as it is. */
  predicate Plain(s: string) {
    forall i :: 0 <= i < |s| ==> PlainChar(s[i])
  }

  predicate PlainChar(c: char) {
    c != ' ' && c != '-' && c != '%' && c != '_'
  }

  lemma {:induction false} UnescapePlain(l: string, rest: string)
    requires Plain(l)
    ensures Unescape(l + rest) == l + Unescape(rest)
    decreases |l|
  {
    if l == [] {
      assert l + rest == rest;
    } else {
      var c, tail := l[0], l[1..];
      assert PlainChar(c);
      assert Plain(tail) by {
        assert forall i :: 0 <= i < |tail| ==> tail[i] == l[i + 1];
      }
      calc {
        Unescape(l + rest);
        { assert l + rest == [c] + (tail + rest); }
        Unescape([c] + (tail + rest));
        { UnescapeOther(c, tail + rest); }
        [c] + Unescape(tail + rest);
        { UnescapePlain(tail, rest); }
        [c] + (tail + Unescape(rest));
        { assert [c] + tail == l; }
        l + Unescape(rest);
      }
    }
  }

  /** A character outside `%`, `-` and `_` reads as itself. */
  lemma UnescapeOther(c: char, rest: string)
    requires c != '%' && c != '-' && c != '_'
    ensures Unescape([c] + rest) == [c] + Unescape(rest)
  {
    var t := [c] + rest;
    assert t[0] == c && t[1..] == rest;
    assert !(|t| >= 3 && t[..3] == "%20") by {
      if |t| >= 3 { assert t[..3][0] == c; }
    }
    assert !(|t| >= 2 && (t[..2] == "--" || t[..2] == "__")) by {
      if |t| >= 2 { assert t[..2][0] == c; }
    }
  }

  /** As written the escape leaves `_` alone, and shields.io shows it as a
      space: plain text around one `_` comes back with a space instead. */
  lemma UnderscoreReadsAsSpace(l: string, r: string)
    requires Plain(l) && Plain(r)
    ensures Escape(l + "_" + r) == l + "_" + r
    ensures Unescape(Escape(l + "_" + r)) == l + " " + r
  {
    var s := l + "_" + r;
    EscapeKeepsAround(l, r);
    assert r == [] || r[0] != '_' by {
      if r != [] { assert PlainChar(r[0]); }
    }
    calc {
      Unescape(Escape(s));
      { assert s == l + ("_" + r); }
      Unescape(l + ("_" + r));
      { UnescapePlain(l, "_" + r); }
      l + Unescape("_" + r);
      { UnescapeUnderscore(r); }
      l + (" " + Unescape(r));
      { UnescapePlain(r, []); assert r + [] == r; }
      l + (" " + r);
    }
  }

  lemma EscapeKeepsAround(l: string, r: string)
    requires Plain(l) && Plain(r)
    ensures Escape(l + "_" + r) == l + "_" + r
  {
    var s := l + "_" + r;
    forall i | 0 <= i < |s|
      ensures s[i] != ' ' && s[i] != '-'
    {
      if i < |l| {
        assert s[i] == l[i];
      } else if i > |l| {
        assert s[i] == r[i - |l| - 1];
      }
    }
    EscapeKeeps(s);
  }

  /** A label `my_lib` is displayed as `my lib`. */
  lemma MyLibShownWithSpace()
    ensures Unescape(Escape("my_lib")) == "my lib"
  {
    UnderscoreReadsAsSpace("my", "lib");
    assert "my" + "_" + "lib" == "my_lib";
    assert "my" + " " + "lib" == "my lib";
  }

  /** A lone `_` reads as a space. */
  lemma UnescapeUnderscore(rest: string)
    requires rest == [] || rest[0] != '_'
    ensures Unescape("_" + rest) == " " + Unescape(rest)
  {
    var t := "_" + rest;
    assert t[0] == '_' && t[1..] == rest;
    assert !(|t| >= 3 && t[..3] == "%20") by {
      if |t| >= 3 { assert t[..3][0] == '_'; }
    }
    assert !(|t| >= 2 && t[..2] == "--") by {
      if |t| >= 2 { assert t[..2][0] == '_'; }
    }
    assert !(|t| >= 2 && t[..2] == "__") by {
      if |t| >= 2 { assert t[..2][1] == t[1]; }
    }
  }

  /** The escape with underscores doubled as well, as shields.io expects. */
  function ShieldsEscape(s: string): (r: string)
    ensures ' ' !in r
  {
    ReplaceChar(Escape(s), '_', "__")
  }

  function ShieldsEscapeChar(c: char): string {
    if c == '_' then "__" else EscapeChar(c)
  }

  lemma ShieldsEscapeCons(s: string)
    requires s != []
    ensures ShieldsEscape(s) == ShieldsEscapeChar(s[0]) + ShieldsEscape(s[1..])
  {
    EscapeCons(s);
    var h := EscapeChar(s[0]);
    ReplaceCharAppend(h, Escape(s[1..]), '_', "__");
    if s[0] == '_' {
      assert h == [s[0]] && h[1..] == [];
    } else {
      ReplaceCharAbsent(h, '_', "__");
    }
  }

  lemma {:induction false} ReplaceCharAbsent(s: string, c: char, rep: string)
    requires c !in s
    ensures ReplaceChar(s, c, rep) == s
    decreases |s|
  {
    if s != [] {
      assert s[0] != c && c !in s[1..];
      ReplaceCharAbsent(s[1..], c, rep);
      assert s == [s[0]] + s[1..];
    }
  }

  lemma UnescapeShieldsCons(c: char, rest: string)
    requires c != '%'
    ensures Unescape(ShieldsEscapeChar(c) + rest) == [c] + Unescape(rest)
  {
    if c == '_' {
      var t := ShieldsEscapeChar(c) + rest;
      assert t[..2] == "__" && t[2..] == rest;
      assert !(|t| >= 3 && t[..3] == "%20") by {
        if |t| >= 3 { assert t[..3][0] == '_'; }
      }
    } else {
      UnescapeCons(c, rest);
    }
  }

  /** With underscores doubled, shields.io reads back every text without `%`. */
  lemma {:induction false} UnescapeShieldsEscape(s: string)
    requires '%' !in s
    ensures Unescape(ShieldsEscape(s)) == s
    decreases |s|
  {
    if s != [] {
      ShieldsEscapeCons(s);
      UnescapeShieldsCons(s[0], ShieldsEscape(s[1..]));
      UnescapeShieldsEscape(s[1..]);
      assert s == [s[0]] + s[1..];
    }
  }

  /** `create_custom_badge(label, message, color, link)`. The name is the two
      escaped parts around its only space, and each part reads back to its input
      when that has no `%` or `_`; the URL is the catalog's `custom` template filled
      with the escaped parts. */
  function CreateCustomBadge(caption: string, message: string, color: string := "blue",
                             link: Option<string> := None): (r: Badge)
    ensures r.link == link && r.alt == None
    ensures var i := |Escape(caption)|;
            && i < |r.name| && r.name[i] == ' '
            && (forall j :: 0 <= j < |r.name| && j != i ==> r.name[j] != ' ')
            && r.name[..i] == Escape(caption) && r.name[i + 1..] == Escape(message)
    ensures '%' !in caption && '_' !in caption ==> Unescape(r.name[..|Escape(caption)|]) == caption
    ensures '%' !in message && '_' !in message ==> Unescape(r.name[|Escape(caption)| + 1..]) == message
    ensures Instantiate(CustomUrl, map["label" := Escape(caption), "message" := Escape(message), "color" := color])
            == Formatted(r.url)
  {
    var l := Escape(caption);
    var m := Escape(message);
    NameSplits(l, m);
    ReadsBack(caption);
    ReadsBack(message);
    CustomUrlFilled(l, m, color);
    Badge(l + " " + m, Shields + "badge/" + l + "-" + m + "-" + color, link, None)
  }

  /** `Escape` is undone by `Unescape` on text without `%` or `_`. */
  lemma ReadsBack(s: string)
    ensures '%' !in s && '_' !in s ==> Unescape(Escape(s)) == s
  {
    if '%' !in s && '_' !in s {
      UnescapeEscape(s);
    }
  }

  /** Two space-free parts joined by one space: the space is the only one, and
      both parts can be read back from either side of it. */
  lemma NameSplits(l: string, m: string)
    requires ' ' !in l && ' ' !in m
    ensures var n := l + " " + m;
            && |l| < |n| && n[|l|] == ' '
            && (forall j :: 0 <= j < |n| && j != |l| ==> n[j] != ' ')
            && n[..|l|] == l && n[|l| + 1..] == m
  {
    var n := l + " " + m;
    forall j | 0 <= j < |n| && j != |l|
      ensures n[j] != ' '
    {
      if j < |l| {
        assert n[j] == l[j];
      } else {
        assert n[j] == m[j - |l| - 1];
      }
    }
    assert n[..|l|] == l;
    assert n[|l| + 1..] == m;
  }

  lemma CustomUrlFilled(l: string, m: string, c: string)
    ensures Instantiate(CustomUrl, map["label" := l, "message" := m, "color" := c])
            == Formatted(Shields + "badge/" + l + "-" + m + "-" + c)
  {
    var kw := map["label" := l, "message" := m, "color" := c];
    var ps := CustomUrl;
    var t5 := c;
    var t4 := "-" + t5;
    var t3 := m + t4;
    var t2 := "-" + t3;
    var t1 := l + t2;
    var t0 := (Shields + "badge/") + t1;
    assert Instantiate(ps[6..], kw) == Formatted([]);
    assert Instantiate(ps[5..], kw) == Formatted(t5) by { assert c + [] == c; }
    assert Instantiate(ps[4..], kw) == Formatted(t4);
    assert Instantiate(ps[3..], kw) == Formatted(t3);
    assert Instantiate(ps[2..], kw) == Formatted(t2);
    assert Instantiate(ps[1..], kw) == Formatted(t1);
    assert Instantiate(ps, kw) == Formatted(t0);
    Reassociate(Shields + "badge/", l, "-", m, "-", c);
  }

  lemma Reassociate(a: string, b: string, c: string, d: string, e: string, f: string)
    ensures a + (b + (c + (d + (e + f)))) == a + b + c + d + e + f
  {
  }

  lemma CustomIsCataloged()
    ensures "custom" in BadgeTypes && TemplateOf(BadgeTypes["custom"]) == BadgeTemplate("Custom", CustomUrl, None)
  {
  }

  /** The custom badge's URL is what the catalog's `custom` template gives for
      the escaped label and message. */
  lemma CustomBadgeMatchesCatalog(caption: string, message: string, color: string)
    ensures var kw := map["label" := Escape(caption), "message" := Escape(message), "color" := color];
            GenerateBadge("custom", kw).Some?
            && GenerateBadge("custom", kw).value.url == CreateCustomBadge(caption, message, color, None).url
  {
    CustomIsCataloged();
    CustomUrlFilled(Escape(caption), Escape(message), color);
  }
}
