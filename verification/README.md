# readme-forge core, modelled in Dafny

readme-forge writes README files. Its core has four pure parts, and the
CLI and the terminal UI sit on top of them:

- **The section composer** (`templates.py`). A template is a list of
  sections, each with an integer `order`. `render_template` does four things:
  - it stable-sorts the sections by `order`;
  - it writes a markdown table of contents into the context when a `toc`
    section is present;
  - it renders each section, dropping failed or blank ones;
  - it joins the survivors with newlines.
  An unknown template name falls back to `standard`.
- **The badge builder** (`badges.py`). It fills shields.io URL templates from
  keyword arguments; a missing key means no badge. It expands named presets,
  falling back to `minimal`. It renders badges as markdown and escapes custom
  labels.
- **License resolution** (`licenses.py`). Ids are normalised through a
  lower-case alias table, looked up in a catalog of seven licenses, and their
  text is filled with `{year}` and `{author}`. The badge name is the SPDX id,
  or the raw id for an unknown license.
- **Repository helpers** (`git_utils.py`). These are:
  - the `GitInfo` record and its list defaults;
  - the GitHub remote pattern `github\.com[:/]([^/]+)/([^/.]+)`;
  - the keyword classifier for license files;
  - the commit-summary and contributor limits;
  - the context suggested from a `GitInfo`.

## Layout

| file | module | contents |
|---|---|---|
| `base.dfy` | `Base` | `Option`, order-preserving `Map`/`Filter`/`FilterMap`, `Join` |
| `text.dfy` | `Text` | ASCII `lower`, character replacement, substring test, Python whitespace, `s[:n]`, integer formatting |
| `placeholders.dfy` | `Placeholders` | The part of `str.format(**kw)` the catalogs use: `{key}`, `{{`, `}}`, `KeyError`. Catalog templates are lists of literal and hole pieces. |
| `composer.dfy` | `Composer` | Sections, stable sort, table of contents, fault-isolated rendering, `Compose` |
| `templates.dfy` | `Templates` | The section registry, the six templates, `render_template`, `get_section_names` |
| `badges.dfy` | `Badges` | `Badge`, the 34-entry template catalog, presets, generation, markdown, custom badges |
| `licenses.dfy` | `Licenses` | The license catalog, aliases, lookup, text generation, badge names |
| `git_utils.dfy` | `GitUtils` | `GitInfo`, the remote pattern, the classifier, commit and contributor limits, suggested context |

Section bodies are Jinja templates. They are not evaluated here: the composer
takes the renderer as a parameter of type `(string, Context) -> Option<string>`,
where `None` stands for a rendering exception.

Catalog templates are kept as piece lists (`Lit`/`Hole`). Their text is
`Unparse(pieces)`, which doubles literal braces. `FormatUnparse` proves that
formatting that text equals filling the pieces, so the catalogs stay close to
the source's format strings.

Python's `str.format` scans left to right and raises `KeyError` at the first
missing name. The model does the same: `Format` returns `MissingKey(k)` for
the first missing key `k`.

## Model

| member | source | states |
|---|---|---|
| `Composer.SortByOrder` | src/readme_forge/templates.py:455 | The result is ascending by `order` and a permutation of the sections. For every `order` value, the sections with that value keep their declaration order, so the sort is stable. |
| `Composer.StableSortUnique` | src/readme_forge/templates.py:455 | Two sequences that are both sorted and keep the same per-key subsequences are equal. So `SortByOrder` is the one stable sort `sorted` computes. |
| `Composer.Anchor` | src/readme_forge/templates.py:462 | The anchor has the title's length. It contains no space and no ASCII capital. Each space becomes `-`, and every other character is lower-cased. |
| `Composer.AnchorNormal` | src/readme_forge/templates.py:462 | Taking the anchor twice changes nothing, and the title's case does not matter. |
| `Composer.TocLines` | src/readme_forge/templates.py:459-463 | There is at most one line per section. A line occurs exactly when some section that is neither `toc` nor `header` and has a non-empty title yields `- [title](#anchor)`. |
| `Composer.TocLinesAppend` | src/readme_forge/templates.py:459-463 | Table-of-contents lines keep the sections' order: splitting the input splits the output. |
| `Composer.RenderSections` | src/readme_forge/templates.py:467-477 | Every surviving part is a non-blank render of some section. Every non-blank render survives. When all sections fail or come out blank, nothing survives. |
| `Composer.DroppedSectionContributesNothing` | src/readme_forge/templates.py:468-477 | A section whose render fails or is blank removes itself and nothing else from the output. |
| `Composer.KeptSectionContributesItsText` | src/readme_forge/templates.py:468-475 | A section with a non-blank render contributes exactly that text, at its own place. |
| `Composer.Compose` | src/readme_forge/templates.py:452-479 | Only `table_of_contents` may change in the context: every other key is kept with its value. The key is written exactly when a `toc` section is present, and it then holds the newline-joined lines of the sorted sections. The document is the texts of the visible sections, taken in sorted order and joined by `"\n"`. |
| `Composer.VisibleIndicesExact` | src/readme_forge/templates.py:467-477 | The positions listed are those of sections whose render succeeds and is not blank. They strictly ascend, and every such section's position is listed. |
| `Composer.RenderSectionsAreVisibleTexts` | src/readme_forge/templates.py:467-477 | The parts the loop keeps are exactly the visible sections' texts: one per visible section, in the order of the input. |
| `Composer.LowerOrderShownFirst` | src/readme_forge/templates.py:455-479 | Of two visible sections of a template, the one with the lower `order` has its text joined into the document ahead of the other's. |
| `Composer.SortKeepsToc` | src/readme_forge/templates.py:455-458 | Sorting neither adds nor removes a `toc` section. |
| `Composer.SortKeepsMembers` | src/readme_forge/templates.py:455 | A section is in the sorted list exactly when it is in the template. |
| `Composer.EmptyDocumentIffAllDropped` | src/readme_forge/templates.py:467-479 | The document is `""` exactly when every section of the template fails or renders blank, in the context the table of contents leaves behind. |
| `Composer.VisibleSectionInDocument` | src/readme_forge/templates.py:467-479 | Any section of the template whose render succeeds and is not blank appears verbatim in the document. |
| `Composer.ComposeIdempotent` | src/readme_forge/templates.py:458-464 | Composing again with the context the first call left behind gives the same document and context. |
| `Templates.RegistryFilesByName` | src/readme_forge/templates.py:28-311 | Every section registry entry is filed under its own name. |
| `Templates.TemplatesUseRegistry` | src/readme_forge/templates.py:314-426 | Every section of every template is the registry entry of that name, so templates share their sections. |
| `Templates.CatalogConsistent` | src/readme_forge/templates.py:314-426 | `standard` is in the catalog, and every template is filed under its own name. |
| `Templates.GetTemplate` | src/readme_forge/templates.py:429-431 | The lookup succeeds exactly for catalog names, and then returns the catalog's own entry for that name. |
| `Templates.ResolveTemplate` | src/readme_forge/templates.py:447-450 | A known name gives its template. Any other name gives `standard`. |
| `Templates.RenderTemplate` | src/readme_forge/templates.py:444-479 | Every context key other than `table_of_contents` keeps its presence and its value. The document is the chosen template's visible section texts, in sorted order, joined by `"\n"`. |
| `Templates.UnknownTemplateIsStandard` | src/readme_forge/templates.py:448-450 | An unknown name renders exactly as `standard` does, context included. |
| `Templates.GetSectionNames` | src/readme_forge/templates.py:482-487 | A known template gives its section names in declaration order. An unknown one gives `[]`. |
| `Templates.RenderOrderPutsRoadmapFirst` | src/readme_forge/templates.py:206 | Whatever the declaration order, sorting puts `roadmap` (order 60) before `testing` (order 65). |
| `Templates.PythonLibraryListsTestingFirst` | src/readme_forge/templates.py:328-329 | The Python library template lists `testing` ninth and `roadmap` tenth. |
| `Templates.PythonLibraryRendersRoadmapFirst` | src/readme_forge/templates.py:320-333 | Sorting the same template puts `roadmap` before `testing`, so listing order and sorted order differ. |
| `Templates.RenderedRoadmapBeforeTesting` | src/readme_forge/templates.py:206-252 | In the document of any template holding both sections, a visible `roadmap` comes before a visible `testing`. |
| `Templates.PythonLibraryDocumentShowsRoadmapFirst` | src/readme_forge/templates.py:320-333 | The `python_library` document shows `roadmap` before `testing` whenever both render visibly. |
| `Placeholders.Format` | src/readme_forge/licenses.py:450 | A missing key is a valid name that is absent from the arguments. Text without braces is returned unchanged. |
| `Placeholders.Instantiate` | src/readme_forge/badges.py:288-294 | Filling succeeds exactly when every hole's key is supplied. Otherwise it names a missing hole key. |
| `Placeholders.FormatUnparse` | src/readme_forge/licenses.py:450 | Formatting a catalog template's text is the same as filling its holes. |
| `Placeholders.FormatLiteral` | src/readme_forge/badges.py:288 | Literal text written with doubled braces comes out unchanged in front of the rest. |
| `Placeholders.InstantiateLocal` | src/readme_forge/badges.py:288-289 | Only the template's own keys matter. Extra keyword arguments change nothing. |
| `Placeholders.NoKeysIgnoresArguments` | src/readme_forge/licenses.py:343-367 | A template without holes always formats, and to the same text whatever the arguments. |
| `Badges.ToMarkdown` | src/readme_forge/badges.py:18-23 | An unlinked badge is `![alt](url)`: the alt text (the alt, else the name) and the URL can each be read back from the place their delimiters fix. A linked badge is `[` followed by that image, then `](`, the link and `)`, and each field reads back the same way. |
| `Badges.LinkWrapsImage` | src/readme_forge/badges.py:21-22 | A linked badge is its unlinked markdown wrapped as `[...](link)`. |
| `Badges.MarkdownFallbacks` | src/readme_forge/badges.py:20-21 | An empty link counts as no link. A missing or empty alt falls back to the name. |
| `Badges.LookupTemplate` | src/readme_forge/badges.py:282-284 | A template is found exactly for the catalog badge types. |
| `Badges.FromTemplate` | src/readme_forge/badges.py:286-294 | A badge results exactly when the URL's keys, and the link's keys if there is a non-empty link, are all supplied. Its URL is the filled URL template. Its link is the filled link, and it is absent exactly when the template has no non-empty link. |
| `Badges.GenerateBadge` | src/readme_forge/badges.py:282-294 | An unknown type gives no badge. A known type gives what its catalog template gives. |
| `Badges.FromTemplateIgnoresExtraArguments` | src/readme_forge/badges.py:288-289 | Arguments that agree on the template's keys give the same badge. |
| `Badges.GitHubActionsNeedsWorkflow` | src/readme_forge/badges.py:96 | Without a `workflow` argument, `github_actions` gives no badge. |
| `Badges.GenerateBadges` | src/readme_forge/badges.py:311-316 | There are at most as many badges as types. A badge is in the result exactly when some listed type generates it. |
| `Badges.GenerateBadgesAppend` | src/readme_forge/badges.py:311-316 | Each type contributes on its own, in input order. |
| `Badges.PresetsUseKnownTypes` | src/readme_forge/badges.py:221-265 | `minimal` is a preset, and every name in every preset is a catalog badge type. |
| `Badges.PresetTypes` | src/readme_forge/badges.py:333 | A known preset gives its list, and any other name gives the `minimal` list. Either way, every type is in the catalog. |
| `Badges.GenerateBadgesFromPreset` | src/readme_forge/badges.py:333-334 | There are at most as many badges as preset types. Each badge comes from one of those types, and every badge one of them generates is included. |
| `Badges.UnknownPresetIsMinimal` | src/readme_forge/badges.py:333 | An unknown preset gives exactly the `minimal` badges. |
| `Badges.PresetsDropGitHubActions` | src/readme_forge/badges.py:319-334 | Without `workflow`, every preset gives exactly the badges of its list with `github_actions` removed. |
| `Badges.BadgesToMarkdown` | src/readme_forge/badges.py:337-348 | No badges give `""`, and one badge gives its own markdown. The separator defaults to one space. |
| `Badges.BadgesToMarkdownAppend` | src/readme_forge/badges.py:348 | Two runs of badges render separately, joined by one separator. |
| `Badges.Escape` | src/readme_forge/badges.py:380-381 | The escaped text has no space, and it has twice as many dashes as the input. |
| `Badges.UnescapeEscape` | src/readme_forge/badges.py:380-381 | For text without `%` or `_`, reading the escape back as shields.io does (`%20` and `_` are spaces, `--` a dash, `__` an underscore) gives the original. |
| `Badges.EscapeConflatesPercent` | src/readme_forge/badges.py:380 | A literal `%20` and a space escape to the same text. |
| `Badges.UnderscoreReadsAsSpace` | src/readme_forge/badges.py:380-381 | Plain text around one `_` escapes to itself, and shields.io reads it back with a space in place of the `_`. |
| `Badges.UnescapeShieldsEscape` | src/readme_forge/badges.py:380-381 | With `_` doubled as well, shields.io reads back every text without `%`. |
| `Badges.CreateCustomBadge` | src/readme_forge/badges.py:361-389 | The link is passed through and there is no alt. The name has exactly one space, with the escaped label before it and the escaped message after it. When label or message has neither `%` nor `_`, shields.io reads its part of the name back as the original. The URL is the catalog's `custom` template filled with the escaped parts and the color. The color defaults to `blue` and the link to none. |
| `Badges.CustomBadgeMatchesCatalog` | src/readme_forge/badges.py:171 | The custom badge URL is what the catalog's `custom` template gives for the escaped label and message. |
| `Licenses.LicenseIdsAreKeys` | src/readme_forge/licenses.py:11-388 | Every license is filed under its own id. |
| `Licenses.TemplateOf` | src/readme_forge/licenses.py:19-21 | License texts use no keys other than `year` and `author`. The Unlicense text uses none. |
| `Licenses.Entry` | src/readme_forge/licenses.py:14 | Each entry's `spdx_id` is the license's catalog key. |
| `Licenses.AliasTargetsKnown` | src/readme_forge/licenses.py:391-411 | Every alias names a catalog entry. |
| `Licenses.Normalize` | src/readme_forge/licenses.py:422 | An id whose lower case is an alias becomes that alias's target, which is a catalog key. Any other id is passed through unchanged. |
| `Licenses.NormalizeIdempotent` | src/readme_forge/licenses.py:391-411 | Normalising a normalised id changes nothing. |
| `Licenses.GetLicenseNames` | src/readme_forge/licenses.py:414-416 | The names are the catalog keys, one per license, in declaration order. |
| `Licenses.GetLicenseInfo` | src/readme_forge/licenses.py:419-423 | When the lower-cased id is an alias, the result is the catalog entry of the alias target. Otherwise the result exists exactly when the id is itself a key, and it is that key's entry. |
| `Licenses.NamesResolveToThemselves` | src/readme_forge/licenses.py:414-423 | Every listed name resolves to its own entry. |
| `Licenses.LookupIsCaseSensitive` | src/readme_forge/licenses.py:421-422 | `Apache-2.0` resolves, but `apache-2.0` does not. |
| `Text.IntToString` | src/readme_forge/licenses.py:450 | `str(year)` as `format` writes it: decimal digits whose value is the number, with no leading zero, preceded by `-` for a negative number. |
| `Licenses.GenerateLicenseText` | src/readme_forge/licenses.py:426-450 | There is no text exactly when the license is unknown. Otherwise the text is the template with `year` and `author` filled in. The author defaults to `Your Name`. |
| `Licenses.UnlicenseIgnoresArguments` | src/readme_forge/licenses.py:343-367 | The Unlicense text exists and is the same for every author and year. |
| `Licenses.GetLicenseBadgeName` | src/readme_forge/licenses.py:483-489 | A known license gives its `spdx_id`. An unknown one gives the id unchanged. |
| `Licenses.SpdxIdIsKey` | src/readme_forge/licenses.py:11-388 | Each `spdx_id` equals the catalog key it is filed under. |
| `Licenses.BadgeNameIsCanonical` | src/readme_forge/licenses.py:483-489 | A known license's badge name is a catalog key that resolves to the same entry, so asking again changes nothing. |
| `GitUtils.MakeGitInfo` | src/readme_forge/git_utils.py:29-35 | A list field given as None becomes `[]`. A list given as a value is kept, and so is every other field. |
| `GitUtils.EmptyGitInfo` | src/readme_forge/git_utils.py:12-35 | By default the flags are false, the lists are empty, and every optional field is None. |
| `GitUtils.MatchAt` | src/readme_forge/git_utils.py:72-75 | A match found at a position fits the pattern there. |
| `GitUtils.MatchAtComplete` | src/readme_forge/git_utils.py:72-75 | Every match of the pattern at a position, with its greedy groups, is the one found there. |
| `GitUtils.ParseGitHubRemote` | src/readme_forge/git_utils.py:72-78 | A result is the leftmost match. Its owner is non-empty and has no `/`, and its repository is non-empty and has neither `/` nor `.`. No result means no position matches. |
| `GitUtils.ParseIsLeftmost` | src/readme_forge/git_utils.py:72-75 | Any match found later or elsewhere means there is a result, and the chosen position comes no later than it. |
| `GitUtils.HttpsRemoteParses` | src/readme_forge/git_utils.py:72-78 | `https://github.com/<owner>/<repo>`, bare or followed by `/` or `.`, gives owner and repository. |
| `GitUtils.SshRemoteParses` | src/readme_forge/git_utils.py:72-78 | `git@github.com:<owner>/<repo>.git` gives owner and repository. |
| `GitUtils.BothSpellingsAgree` | src/readme_forge/git_utils.py:72-78 | The HTTPS and SSH spellings of one remote give the same pair. |
| `GitUtils.WithRemote` | src/readme_forge/git_utils.py:69-78 | The URL is stored. Owner and repository come from a match, or are left as they were when there is none. No other field changes. |
| `GitUtils.Classify` | src/readme_forge/git_utils.py:177-198 | The result is None or one of the eleven names the classifier can return. |
| `GitUtils.DetectReadsOnlyWindow` | src/readme_forge/git_utils.py:175 | Only the first 1000 characters of the file decide the result. |
| `GitUtils.DetectIgnoresCase` | src/readme_forge/git_utils.py:175 | Lower-casing the file first changes nothing. |
| `GitUtils.ClassifyFollowsRuleTable` | src/readme_forge/git_utils.py:177-198 | The nested tests equal a flat table of phrase rules tried in order: MIT, Apache, GPL 3/2/bare, BSD 3/2/bare, ISC, MPL, Unlicense. |
| `GitUtils.DetectLicenseType` | src/readme_forge/git_utils.py:171-202 | The detected type is one of the classifier's names, and it is the first rule of the phrase table that fires on the lower-cased first 1000 characters. |
| `GitUtils.CommitSummary` | src/readme_forge/git_utils.py:101 | The summary is a prefix of the message, at most 80 characters, with no newline. When it is shorter than 80, it is the whole first line. |
| `GitUtils.RecentCommits` | src/readme_forge/git_utils.py:99-102 | There are at most five summaries, one for each of the newest messages, in order. |
| `GitUtils.Dedupe` | src/readme_forge/git_utils.py:90-92 | The names have no repeats and the same members as the input, so there are as many as the input has distinct names. |
| `GitUtils.Contributors` | src/readme_forge/git_utils.py:89-93 | There are exactly min(10, number of distinct authors of the last 100 commits) names, with no repeats, all authors of those commits. |
| `GitUtils.FewContributorsAllListed` | src/readme_forge/git_utils.py:93 | With at most 10 distinct authors among the scanned commits, every one of them is listed. |
| `GitUtils.Acknowledgments` | src/readme_forge/git_utils.py:388 | There are at most five entries, each `@` followed by the contributor at that position. |
| `GitUtils.AcknowledgmentsRecoverNames` | src/readme_forge/git_utils.py:388 | Dropping the `@` gives back each contributor. |
| `GitUtils.GetSuggestedContext` | src/readme_forge/git_utils.py:369-393 | The keys are a subset of the six. Each key is present exactly when its field is truthy, and its value is that field, or the acknowledgments for `acknowledgments`. |
| `GitUtils.SuggestedContextLeavesTocFree` | src/readme_forge/git_utils.py:373-393 | The suggestion never sets `table_of_contents`. |
| `GitUtils.CatalogResultKeepsName` | src/readme_forge/git_utils.py:177-198 | A classifier result that is a catalog key resolves to its entry and keeps its name on the badge. |
| `GitUtils.ResultsOutsideCatalog` | src/readme_forge/git_utils.py:184-192 | Of the classifier's results, exactly `GPL-2.0`, `GPL`, `BSD-2-Clause` and `BSD` are not catalog keys. |
| `GitUtils.GplResolvesToNewest` | src/readme_forge/licenses.py:397 | The bare `GPL` result gets the badge name `GPL-3.0` through the alias table. |
| `GitUtils.BsdResolvesToNewest` | src/readme_forge/licenses.py:401 | The bare `BSD` result gets the badge name `BSD-3-Clause`. |
| `GitUtils.Gpl2Unknown` | src/readme_forge/git_utils.py:184-185 | `GPL-2.0` has no catalog entry and keeps its name on the badge. |
| `GitUtils.Bsd2Unknown` | src/readme_forge/git_utils.py:190-191 | `BSD-2-Clause` has no catalog entry and keeps its name on the badge. |

## Left out

- `Badges.CreateCustomBadge`: the read-back clauses cover only label and
  message text without `%` or `_`. The source's escape does not protect
  either character, so shields.io changes them; see Findings.
- `Badges.UnescapeEscape`: the round trip is stated only for text without `%`
  or `_`, for the same reason. `Badges.UnescapeShieldsEscape` states it for
  the corrected escape.
- Context values: the JSON configuration a caller loads can hold numbers,
  booleans and nested objects. The composer only passes values through to
  the renderer, so the model keeps just strings and lists of strings, which
  are the kinds the suggested context produces.
- Jinja evaluation of section bodies: the renderer is a parameter. Section
  bodies are abbreviated to their headings, and the composer treats them as
  opaque text.
- License prose is abbreviated. Each license template keeps its placeholder
  structure, that is which of `{year}` and `{author}` occur and in what order,
  with shortened text around them.
- `Placeholders.Format`: models only plain `{name}` fields and the `{{`/`}}`
  escapes. Format specs, conversions, and positional, attribute or index
  fields are reported as `Invalid` rather than modelled. The catalogs use
  none of them.
- `Text.Lower`: ASCII only. Python's Unicode lower-casing, including characters
  whose lower case is longer, is not modelled.
- `GitUtils.Contributors`: `list(set(...))` has no defined order in Python.
  The model lists first occurrences in commit order. The count, no-repeat and
  membership clauses hold for every order. The clause that the result is a
  prefix of `Dedupe` holds only for this first-occurrence order.
- `GitUtils.DetectLicenseType`: takes the file content as a parameter. The
  file read and the exception path that yields None are left out.
- File-system, git and network access are left out:
  - `detect_git_info`, apart from the pure steps above;
  - `_basic_git_detection`, including its `url = ...` config-file pattern and
    `strip`;
  - the `active_branch` read with its `"main"` fallback;
  - the LICENSE and README existence checks;
  - `_detect_languages`, `detect_project_type` and `_fetch_github_description`;
  - `save_license_file`.
- The clock read for the default license year: the year is a parameter of
  `GenerateLicenseText`.
- `get_template_names`, `get_template_descriptions`, `get_badge_types` and
  `get_presets`: they only list or copy catalog dictionaries. The catalogs
  themselves are modelled.
- `main.py`, `tui.py` and `__init__.py`: interactive UI, output and
  re-exports, with no behaviour of their own.
- Badge types beyond lookup: each catalog entry is present with its key set
  and link. Every URL and link template is carried in full, but nothing is
  proved about its literal text beyond the keys it uses.

## Findings

| source | as written | input that shows it | evidently intended | confidence | as-written member | corrected member |
|---|---|---|---|---|---|---|
| src/readme_forge/badges.py:380-381 | The custom-badge escape replaces spaces and dashes but leaves `_` as it is. shields.io reads a single `_` as a space. | The label `my_lib` is shown as `my lib` (`Badges.MyLibShownWithSpace`). | Double every `_` as well, so that the label reads back unchanged. | medium, not executed | `Badges.UnderscoreReadsAsSpace` | `Badges.UnescapeShieldsEscape` |

`Badges.ShieldsEscape` adds the third replacement, `_` to `__`. The corrected
member proves that shields.io reads its output back for every text without
`%`. `Badges.CreateCustomBadge` keeps the escape as written, because it states
the badge the source produces.
