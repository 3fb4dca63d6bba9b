/** The license catalog: seven licenses with their metadata and a text
    template holding `{year}` and `{author}`, the lower-case alias table, and
    the lookups built on them. */
module Licenses {
  import opened Base
  import opened Text
  import opened Placeholders

  /** One value of `LICENSES`. */
  datatype LicenseEntry = LicenseEntry(
    name: string,
    spdxId: string,
    description: string,
    permissions: seq<string>,
    conditions: seq<string>,
    limitations: seq<string>,
    template: Pattern)

  /** The keys of `LICENSES`, one per license. */
  datatype LicenseKind = MIT | Apache2 | GPL3 | BSD3 | ISC | Unlicense | MPL2

  /** The key each license is filed under. */
  function LicenseId(k: LicenseKind): string {
    match k
    case MIT => "MIT"
    case Apache2 => "Apache-2.0"
    case GPL3 => "GPL-3.0"
    case BSD3 => "BSD-3-Clause"
    case ISC => "ISC"
    case Unlicense => "Unlicense"
    case MPL2 => "MPL-2.0"
  }

  /** Declaration order of `LICENSES`. */
  const LicenseOrder: seq<LicenseKind> := [MIT, Apache2, GPL3, BSD3, ISC, Unlicense, MPL2]

  const Licenses: map<string, LicenseKind> := map[
    "MIT" := MIT,
    "Apache-2.0" := Apache2,
    "GPL-3.0" := GPL3,
    "BSD-3-Clause" := BSD3,
    "ISC" := ISC,
    "Unlicense" := Unlicense,
    "MPL-2.0" := MPL2
  ]

  /** The key table and the kind-to-key function are inverse to each other. */
  lemma LicenseIdsAreKeys(k: LicenseKind)
    ensures LicenseId(k) in Licenses && Licenses[LicenseId(k)] == k
  {
  }

  lemma LicenseKeysAreIds(id: string)
    requires id in Licenses
    ensures LicenseId(Licenses[id]) == id
  {
  }

  const YearKey: Key := "year"
  const AuthorKey: Key := "author"

  /** `<before>{year}<between>{author}<after>`. The prose around the copyright
      line is abbreviated; the line itself is as written. */
  function CopyrightTemplate(before: string, between: string, after: string): (r: Pattern)
    ensures Keys(r) == {"year", "author"}
  {
    var ps := [Lit(before), Hole(YearKey), Lit(between), Hole(AuthorKey), Lit(after)];
    assert ps[1] == Hole("year") && ps[3] == Hole("author");
    ps
  }

  const StandardLimitations: seq<string> := ["liability", "warranty"]
  const PermissiveRights: seq<string> := ["commercial-use", "modifications", "distribution", "private-use"]
  const PatentRights: seq<string> := ["commercial-use", "modifications", "distribution", "patent-use", "private-use"]

  // The prose around each copyright line, abbreviated to its opening words
  // and closing lines; the copyright line itself is as written.

  const MitOpening: string := "MIT License\n\nCopyright (c) "
  const MitClosing: string := "\n\n[permission notice and warranty disclaimer]\n"
  const ApacheOpening: string := "                                 Apache License\n[terms and conditions]\n   END OF TERMS AND CONDITIONS\n\n   Copyright "
  const ApacheClosing: string := "\n\n[licensing notice]\n"
  const GplOpening: string := "GNU GENERAL PUBLIC LICENSE\nVersion 3, 29 June 2007\n[preamble]\n\nCopyright "
  const GplClosing: string := "\n\n[licensing notice]\n"
  const BsdOpening: string := "BSD 3-Clause License\n\nCopyright (c) "
  const BsdClosing: string := "\nAll rights reserved.\n\n[three clauses and warranty disclaimer]\n"
  const IscOpening: string := "ISC License\n\nCopyright (c) "
  const IscClosing: string := "\n\n[permission notice and warranty disclaimer]\n"
  const UnlicenseText: string := "This is free and unencumbered software released into the public domain.\n\n[dedication and warranty disclaimer]\n\nFor more information, please refer to <https://unlicense.org>\n"
  const MplOpening: string := "Mozilla Public License Version 2.0\n==================================\n\n[license text and notice]\n\nCopyright "
  const MplClosing: string := "\n"

  const MitDescription: string := "A short and simple permissive license with conditions only requiring preservation of copyright and license notices."
  const ApacheDescription: string := "A permissive license whose main conditions require preservation of copyright and license notices."
  const GplDescription: string := "Permissions of this strong copyleft license are conditioned on making available complete source code."
  const BsdDescription: string := "A permissive license similar to BSD 2-Clause License, but with a 3rd clause prohibiting use of project name."
  const IscDescription: string := "A permissive license functionally equivalent to the BSD 2-Clause and MIT licenses."
  const UnlicenseDescription: string := "A license with no conditions whatsoever which dedicates works to the public domain."
  const MplDescription: string := "A weak copyleft license that allows mixing of code with different licenses."

  /** The `template` field of each entry. */
  function TemplateOf(k: LicenseKind): (r: Pattern)
    ensures Keys(r) <= {"year", "author"}
    ensures k == Unlicense ==> Keys(r) == {}
  {
    match k
    case MIT => CopyrightTemplate(MitOpening, " ", MitClosing)
    case Apache2 => CopyrightTemplate(ApacheOpening, " ", ApacheClosing)
    case GPL3 => CopyrightTemplate(GplOpening, " ", GplClosing)
    case BSD3 => CopyrightTemplate(BsdOpening, ", ", BsdClosing)
    case ISC => CopyrightTemplate(IscOpening, ", ", IscClosing)
    case Unlicense => [Lit(UnlicenseText)]
    case MPL2 => CopyrightTemplate(MplOpening, " ", MplClosing)
  }

  /** The values of `LICENSES`. */
  function Entry(k: LicenseKind): (e: LicenseEntry)
    ensures e.spdxId == LicenseId(k)
    ensures e.template == TemplateOf(k)
  {
    match k
    case MIT => LicenseEntry(
      "MIT License", "MIT", MitDescription,
      PermissiveRights, ["include-copyright"], StandardLimitations, TemplateOf(k))
    case Apache2 => LicenseEntry(
      "Apache License 2.0", "Apache-2.0", ApacheDescription,
      PatentRights, ["include-copyright", "document-changes"], ["trademark-use", "liability", "warranty"], TemplateOf(k))
    case GPL3 => LicenseEntry(
      "GNU General Public License v3.0", "GPL-3.0", GplDescription,
      PatentRights, ["include-copyright", "document-changes", "disclose-source", "same-license"], StandardLimitations, TemplateOf(k))
    case BSD3 => LicenseEntry(
      "BSD 3-Clause License", "BSD-3-Clause", BsdDescription,
      PermissiveRights, ["include-copyright"], StandardLimitations, TemplateOf(k))
    case ISC => LicenseEntry(
      "ISC License", "ISC", IscDescription,
      PermissiveRights, ["include-copyright"], StandardLimitations, TemplateOf(k))
    case Unlicense => LicenseEntry(
      "The Unlicense", "Unlicense", UnlicenseDescription,
      PermissiveRights, [], StandardLimitations, TemplateOf(k))
    case MPL2 => LicenseEntry(
      "Mozilla Public License 2.0", "MPL-2.0", MplDescription,
      PatentRights, ["disclose-source", "include-copyright", "same-license--file"], ["liability", "trademark-use", "warranty"], TemplateOf(k))
  }

  /** `LICENSE_ALIASES`: lower-case spellings and their catalog keys. */
  const LicenseAliases: map<string, string> := map[
    "mit" := "MIT",
    "apache" := "Apache-2.0",
    "apache 2.0" := "Apache-2.0",
    "apache2" := "Apache-2.0",
    "apache-2" := "Apache-2.0",
    "gpl" := "GPL-3.0",
    "gpl3" := "GPL-3.0",
    "gpl-3" := "GPL-3.0",
    "gplv3" := "GPL-3.0",
    "bsd" := "BSD-3-Clause",
    "bsd3" := "BSD-3-Clause",
    "bsd-3" := "BSD-3-Clause",
    "isc" := "ISC",
    "unlicense" := "Unlicense",
    "public domain" := "Unlicense",
    "mpl" := "MPL-2.0",
    "mpl2" := "MPL-2.0",
    "mpl-2" := "MPL-2.0",
    "mozilla" := "MPL-2.0"
  ]

  /** Every alias names a catalog entry. */
  lemma AliasTargetsKnown()
    ensures forall a :: a in LicenseAliases ==> LicenseAliases[a] in Licenses
  {
  }

  /** `get_license_names()`: the keys in declaration order. */
  function GetLicenseNames(): (r: seq<string>)
    ensures |r| == |Licenses|
    ensures forall i :: 0 <= i < |r| ==> r[i] in Licenses && Licenses[r[i]] == LicenseOrder[i]
    ensures forall id :: id in Licenses <==> id in r
  {
    var r := seq(|LicenseOrder|, i requires 0 <= i < |LicenseOrder| => LicenseId(LicenseOrder[i]));
    assert |Licenses| == 7 by {
      assert Licenses.Keys == {"MIT", "Apache-2.0", "GPL-3.0", "BSD-3-Clause", "ISC", "Unlicense", "MPL-2.0"};
    }
    forall i | 0 <= i < |r|
      ensures r[i] in Licenses && Licenses[r[i]] == LicenseOrder[i]
    {
      LicenseIdsAreKeys(LicenseOrder[i]);
    }
    forall id | id in Licenses
      ensures id in r
    {
      var k := Licenses[id];
      LicenseKeysAreIds(id);
      assert k == LicenseOrder[KindIndex(k)];
      assert r[KindIndex(k)] == id;
    }
    r
  }

  /** Where a kind sits in the declaration order. */
  function KindIndex(k: LicenseKind): (i: nat)
    ensures i < |LicenseOrder| && LicenseOrder[i] == k
  {
    match k
    case MIT => 0
    case Apache2 => 1
    case GPL3 => 2
    case BSD3 => 3
    case ISC => 4
    case Unlicense => 5
    case MPL2 => 6
  }

  /** `LICENSE_ALIASES.get(license_id.lower(), license_id)`: an alias, in any
      case, becomes the catalog key it names; anything else is passed through
      unchanged. */
  function Normalize(id: string): (r: string)
    ensures Lower(id) in LicenseAliases ==> r == LicenseAliases[Lower(id)] && r in Licenses
    ensures Lower(id) !in LicenseAliases ==> r == id
  {
    AliasTargetsKnown();
    var lowered := Lower(id);
    if lowered in LicenseAliases then LicenseAliases[lowered] else id
  }

  /** `get_license_info(license_id)`. */
  function GetLicenseInfo(id: string): (r: Option<LicenseEntry>)
    ensures Lower(id) in LicenseAliases ==> r == Some(Entry(Licenses[LicenseAliases[Lower(id)]]))
    ensures Lower(id) in LicenseAliases ==> r.value.spdxId == LicenseAliases[Lower(id)]
    ensures Lower(id) !in LicenseAliases ==> (r.Some? <==> id in Licenses)
    ensures Lower(id) !in LicenseAliases && id in Licenses ==> r.value == Entry(Licenses[id])
  {
    AliasTargetsKnown();
    var n := Normalize(id);
    if n in Licenses then
      LicenseKeysAreIds(n);
      Some(Entry(Licenses[n]))
    else None
  }

  /** MIT, ISC and the Unlicense lower-case to an alias of themselves. */
  lemma AliasedNamesNormalize()
    ensures Normalize("MIT") == "MIT"
    ensures Normalize("ISC") == "ISC"
    ensures Normalize("Unlicense") == "Unlicense"
  {
    assert Lower("MIT") == "mit";
    assert Lower("ISC") == "isc";
    assert Lower("Unlicense") == "unlicense";
  }

  /** The other four keys lower-case to no alias at all. */
  lemma PlainNamesNormalize()
    ensures Normalize("Apache-2.0") == "Apache-2.0"
    ensures Normalize("GPL-3.0") == "GPL-3.0"
    ensures Normalize("BSD-3-Clause") == "BSD-3-Clause"
    ensures Normalize("MPL-2.0") == "MPL-2.0"
  {
    ApacheGplNormalize();
    BsdMplNormalize();
  }

  lemma ApacheGplNormalize()
    ensures Normalize("Apache-2.0") == "Apache-2.0"
    ensures Normalize("GPL-3.0") == "GPL-3.0"
  {
    assert Lower("Apache-2.0") == "apache-2.0";
    assert Lower("GPL-3.0") == "gpl-3.0";
  }

  lemma BsdMplNormalize()
    ensures Normalize("BSD-3-Clause") == "BSD-3-Clause"
    ensures Normalize("MPL-2.0") == "MPL-2.0"
  {
    assert Lower("BSD-3-Clause") == "bsd-3-clause";
    assert Lower("MPL-2.0") == "mpl-2.0";
  }

  /** Each key lower-cases either to no alias or to an alias of itself. */
  lemma NamesNormalizeToThemselves(k: LicenseKind)
    ensures Normalize(LicenseId(k)) == LicenseId(k)
  {
    AliasedNamesNormalize();
    PlainNamesNormalize();
  }

  /** Normalizing twice is normalizing once: an alias lands on a catalog key,
      and catalog keys normalize to themselves. */
  lemma NormalizeIdempotent(id: string)
    ensures Normalize(Normalize(id)) == Normalize(id)
  {
    var n := Normalize(id);
    if n in Licenses {
      LicenseKeysAreIds(n);
      NamesNormalizeToThemselves(Licenses[n]);
    }
  }

  /** Every listed name resolves to its own catalog entry. */
  lemma NamesResolveToThemselves()
    ensures forall i :: 0 <= i < |GetLicenseNames()| ==>
              GetLicenseInfo(GetLicenseNames()[i]) == Some(Entry(LicenseOrder[i]))
  {
    var names := GetLicenseNames();
    forall i | 0 <= i < |names|
      ensures GetLicenseInfo(names[i]) == Some(Entry(LicenseOrder[i]))
    {
      NamesNormalizeToThemselves(LicenseOrder[i]);
      LicenseIdsAreKeys(LicenseOrder[i]);
    }
  }

  /** Outside the alias table, lookup is case-sensitive. */
  lemma LookupIsCaseSensitive()
    ensures GetLicenseInfo("Apache-2.0").Some?
    ensures GetLicenseInfo("apache-2.0") == None
  {
    PlainNamesNormalize();
    LowerCaseApacheUnknown();
  }

  lemma LowerCaseApacheUnknown()
    ensures Normalize("apache-2.0") == "apache-2.0" && "apache-2.0" !in Licenses
  {
    assert Lower("apache-2.0") == "apache-2.0";
  }

  function LicenseArguments(author: string, year: int): map<string, string> {
    map["year" := IntToString(year), "author" := author]
  }

  /** `generate_license_text(license_id, author, year)`, with the year supplied
      by the caller. */
  function GenerateLicenseText(id: string, author: string := "Your Name", year: int): (r: Option<string>)
    ensures r.None? <==> GetLicenseInfo(id).None?
    ensures r.Some? ==> r.value == Instantiate(GetLicenseInfo(id).value.template, LicenseArguments(author, year)).text
  {
    match GetLicenseInfo(id)
    case None => None
    case Some(info) =>
      var kw := LicenseArguments(author, year);
      FormatUnparse(info.template, kw);
      match Format(Unparse(info.template), kw)
      case Formatted(text) => Some(text)
      case _ => None
  }

  lemma UnlicenseResolves()
    ensures GetLicenseInfo("Unlicense") == Some(Entry(Unlicense))
  {
    AliasedNamesNormalize();
  }

  /** The Unlicense has no placeholder, so its text depends on neither argument. */
  lemma UnlicenseIgnoresArguments(author: string, year: int, author': string, year': int)
    ensures GenerateLicenseText("Unlicense", author, year).Some?
    ensures GenerateLicenseText("Unlicense", author, year) == GenerateLicenseText("Unlicense", author', year')
  {
    UnlicenseResolves();
    NoKeysIgnoresArguments(TemplateOf(Unlicense), LicenseArguments(author, year), LicenseArguments(author', year'));
  }

  /** `get_license_badge_name(license_id)`. */
  function GetLicenseBadgeName(id: string): (r: string)
    ensures GetLicenseInfo(id).Some? ==> r == GetLicenseInfo(id).value.spdxId
    ensures GetLicenseInfo(id).None? ==> r == id
  {
    var n := Normalize(id);
    if n in Licenses then Entry(Licenses[n]).spdxId else id
  }

  /** Every `spdx_id` is its own catalog key. */
  lemma SpdxIdIsKey(id: string)
    requires id in Licenses
    ensures Entry(Licenses[id]).spdxId == id
  {
    LicenseKeysAreIds(id);
  }

  /** For a known license the badge name is a catalog key that resolves to the
      same entry, so asking again changes nothing. */
  lemma BadgeNameIsCanonical(id: string)
    requires GetLicenseInfo(id).Some?
    ensures GetLicenseBadgeName(id) in Licenses
    ensures GetLicenseInfo(GetLicenseBadgeName(id)) == GetLicenseInfo(id)
    ensures GetLicenseBadgeName(GetLicenseBadgeName(id)) == GetLicenseBadgeName(id)
  {
    AliasTargetsKnown();
    var n := Normalize(id);
    var k := Licenses[n];
    LicenseKeysAreIds(n);
    NamesNormalizeToThemselves(k);
  }
}
