/** The template catalog of readme-forge: one registry of shared sections, six
    named templates built from it, and the two entry points `render_template`
    and `get_section_names`. */
module Templates {
  import opened Base
  import opened Composer

  /** The template used for an unknown name. */
  const DefaultTemplateName: string := "standard"

  // The shared section registry. Section bodies are abbreviated to their
  // heading; the renderer receives them as opaque text.

  const HeaderSection := TemplateSection("header", "", "# {{ project_name }}\n", false, 0)
  const TocSection := TemplateSection("toc", "Table of Contents", "## Table of Contents\n\n{{ table_of_contents }}\n", true, 5)
  const FeaturesSection := TemplateSection("features", "Features", "## Features\n", true, 10)
  const DemoSection := TemplateSection("demo", "Demo", "## Demo\n", true, 15)
  const PrerequisitesSection := TemplateSection("prerequisites", "Prerequisites", "## Prerequisites\n", true, 20)
  const InstallationSection := TemplateSection("installation", "Installation", "## Installation\n", false, 30)
  const UsageSection := TemplateSection("usage", "Usage", "## Usage\n", false, 40)
  const ApiReferenceSection := TemplateSection("api_reference", "API Reference", "## API Reference\n", true, 50)
  const ConfigurationSection := TemplateSection("configuration", "Configuration", "## Configuration\n", true, 55)
  const RoadmapSection := TemplateSection("roadmap", "Roadmap", "## Roadmap\n", true, 60)
  const ContributingSection := TemplateSection("contributing", "Contributing", "## Contributing\n", true, 70)
  const TestingSection := TemplateSection("testing", "Testing", "## Testing\n", true, 65)
  const LicenseSection := TemplateSection("license", "License", "## License\n", false, 80)
  const ContactSection := TemplateSection("contact", "Contact", "## Contact\n", true, 90)
  const AcknowledgmentsSection := TemplateSection("acknowledgments", "Acknowledgments", "## Acknowledgments\n", true, 100)

  const DefaultSections: map<string, TemplateSection> := map[
    "header" := HeaderSection,
    "features" := FeaturesSection,
    "demo" := DemoSection,
    "prerequisites" := PrerequisitesSection,
    "installation" := InstallationSection,
    "usage" := UsageSection,
    "api_reference" := ApiReferenceSection,
    "configuration" := ConfigurationSection,
    "roadmap" := RoadmapSection,
    "contributing" := ContributingSection,
    "testing" := TestingSection,
    "license" := LicenseSection,
    "contact" := ContactSection,
    "acknowledgments" := AcknowledgmentsSection,
    "toc" := TocSection
  ]

  /** Declared with `testing` ahead of `roadmap`, although it sorts after it. */
  const PythonLibrarySections: seq<TemplateSection> :=
    [HeaderSection, TocSection, FeaturesSection, PrerequisitesSection, InstallationSection,
     UsageSection, ApiReferenceSection, ConfigurationSection, TestingSection, RoadmapSection,
     ContributingSection, LicenseSection, ContactSection, AcknowledgmentsSection]

  const CliToolSections: seq<TemplateSection> :=
    [HeaderSection, TocSection, FeaturesSection, DemoSection, PrerequisitesSection,
     InstallationSection, UsageSection, ConfigurationSection, RoadmapSection,
     ContributingSection, LicenseSection, ContactSection]

  const WebAppSections: seq<TemplateSection> :=
    [HeaderSection, TocSection, FeaturesSection, DemoSection, PrerequisitesSection,
     InstallationSection, UsageSection, ConfigurationSection, ApiReferenceSection,
     TestingSection, RoadmapSection, ContributingSection, LicenseSection, ContactSection,
     AcknowledgmentsSection]

  const ApiSections: seq<TemplateSection> :=
    [HeaderSection, TocSection, FeaturesSection, PrerequisitesSection, InstallationSection,
     UsageSection, ApiReferenceSection, ConfigurationSection, TestingSection, RoadmapSection,
     ContributingSection, LicenseSection, ContactSection]

  const MinimalSections: seq<TemplateSection> :=
    [HeaderSection, InstallationSection, UsageSection, LicenseSection]

  const StandardSections: seq<TemplateSection> :=
    [HeaderSection, TocSection, FeaturesSection, PrerequisitesSection, InstallationSection,
     UsageSection, RoadmapSection, ContributingSection, LicenseSection, ContactSection,
     AcknowledgmentsSection]

  const Templates: map<string, Template> := map[
    "python_library" := Template(
      "python_library", "Template for Python libraries and packages",
      ["library", "package", "module"],
      PythonLibrarySections),
    "cli_tool" := Template(
      "cli_tool", "Template for command-line interface tools",
      ["cli", "command-line", "terminal"],
      CliToolSections),
    "web_app" := Template(
      "web_app", "Template for web applications",
      ["web", "webapp", "website", "frontend", "backend"],
      WebAppSections),
    "api" := Template(
      "api", "Template for REST APIs and backend services",
      ["api", "rest", "backend", "service", "microservice"],
      ApiSections),
    "minimal" := Template(
      "minimal", "A minimal README template",
      ["minimal", "simple", "basic"],
      MinimalSections),
    "standard" := Template(
      "standard", "A standard README template suitable for most projects",
      ["standard", "default", "general"],
      StandardSections)
  ]

  /** Every template is filed under its own name, and the default exists. */
  lemma CatalogConsistent()
    ensures DefaultTemplateName in Templates
    ensures forall n :: n in Templates ==> Templates[n].name == n
  {
  }

  /** Every section registry entry is filed under its own name. */
  lemma RegistryFilesByName()
    ensures forall n :: n in DefaultSections ==> DefaultSections[n].name == n
  {
  }

  /** The section is the registry entry filed under its name. */
  predicate Registered(x: TemplateSection) {
    x.name in DefaultSections && DefaultSections[x.name] == x
  }

  lemma EarlySectionsRegistered()
    ensures Registered(HeaderSection) && Registered(TocSection) && Registered(FeaturesSection)
    ensures Registered(DemoSection) && Registered(PrerequisitesSection)
  {
  }

  lemma MiddleSectionsRegistered()
    ensures Registered(InstallationSection) && Registered(UsageSection) && Registered(ApiReferenceSection)
    ensures Registered(ConfigurationSection) && Registered(RoadmapSection)
  {
  }

  lemma LateSectionsRegistered()
    ensures Registered(ContributingSection) && Registered(TestingSection) && Registered(LicenseSection)
    ensures Registered(ContactSection) && Registered(AcknowledgmentsSection)
  {
  }

  predicate FromRegistry(sections: seq<TemplateSection>) {
    forall i :: 0 <= i < |sections| ==> Registered(sections[i])
  }

  lemma LongListsFromRegistry()
    ensures FromRegistry(PythonLibrarySections) && FromRegistry(WebAppSections) && FromRegistry(ApiSections)
  {
    EarlySectionsRegistered();
    MiddleSectionsRegistered();
    LateSectionsRegistered();
  }

  lemma ShortListsFromRegistry()
    ensures FromRegistry(CliToolSections) && FromRegistry(MinimalSections) && FromRegistry(StandardSections)
  {
    EarlySectionsRegistered();
    MiddleSectionsRegistered();
    LateSectionsRegistered();
  }

  /** Every template is assembled from registry entries, never from a section of its own. */
  lemma TemplatesUseRegistry()
    ensures forall n :: n in Templates ==> FromRegistry(Templates[n].sections)
  {
    LongListsFromRegistry();
    ShortListsFromRegistry();
  }

  /** `get_template`: a dictionary lookup. */
  function GetTemplate(name: string): (r: Option<Template>)
    ensures r.Some? <==> name in Templates
    ensures name in Templates ==> r == Some(Templates[name])
    ensures r.Some? ==> r.value.name == name
  {
    CatalogConsistent();
    if name in Templates then Some(Templates[name]) else None
  }

  /** The template `render_template` uses: the named one, else the default. */
  function ResolveTemplate(name: string): (t: Template)
    ensures name in Templates ==> t == Templates[name]
    ensures name !in Templates ==> t == Templates[DefaultTemplateName]
  {
    CatalogConsistent();
    match GetTemplate(name)
    case Some(t) => t
    case None => Templates[DefaultTemplateName]
  }

  /** `render_template(template_name, context)`: the document, and the context
      as the call leaves it (only the table-of-contents key may change). */
  function RenderTemplate(name: string, ctx: Context, render: Renderer): (r: Rendered)
    ensures forall k :: k != TocKey ==> (k in r.context <==> k in ctx)
    ensures forall k :: k != TocKey && k in ctx ==> r.context[k] == ctx[k]
    ensures r.text == Join(VisibleTexts(SortByOrder(ResolveTemplate(name).sections), r.context, render), "\n")
  {
    Compose(ResolveTemplate(name), ctx, render)
  }

  /** An unknown name renders exactly as the default template does. */
  lemma UnknownTemplateIsStandard(name: string, ctx: Context, render: Renderer)
    requires name !in Templates
    ensures RenderTemplate(name, ctx, render) == RenderTemplate(DefaultTemplateName, ctx, render)
  {
    CatalogConsistent();
  }

  /** `get_section_names`: declaration order, or nothing for an unknown name. */
  function GetSectionNames(name: string): (r: seq<string>)
    ensures name !in Templates ==> r == []
    ensures name in Templates ==> |r| == |Templates[name].sections|
    ensures name in Templates ==> forall i :: 0 <= i < |r| ==> r[i] == Templates[name].sections[i].name
  {
    match GetTemplate(name)
    case None => []
    case Some(t) => seq(|t.sections|, i requires 0 <= i < |t.sections| => t.sections[i].name)
  }

  /** In any template that declares `testing` before `roadmap`, the listing keeps
      that order while sorting puts `roadmap` (order 60) before `testing`
      (order 65). */
  lemma RenderOrderPutsRoadmapFirst(s: seq<TemplateSection>)
    requires RoadmapSection in s && TestingSection in s
    ensures RoadmapBeforeTesting(SortByOrder(s))
  {
    var sorted := SortByOrder(s);
    assert RoadmapSection in multiset(s) && TestingSection in multiset(s);
    assert RoadmapSection in multiset(sorted) && TestingSection in multiset(sorted);
    var i :| 0 <= i < |sorted| && sorted[i] == RoadmapSection;
    var j :| 0 <= j < |sorted| && sorted[j] == TestingSection;
    assert RoadmapSection.order == 60 && TestingSection.order == 65;
    assert 0 <= i < j < |sorted| && sorted[i] == RoadmapSection && sorted[j] == TestingSection;
  }

  predicate RoadmapBeforeTesting(s: seq<TemplateSection>) {
    exists i, j :: 0 <= i < j < |s| && s[i] == RoadmapSection && s[j] == TestingSection
  }

  /** The Python library template lists `testing` before `roadmap`... */
  lemma PythonLibraryListsTestingFirst()
    ensures GetSectionNames("python_library")[8] == "testing"
    ensures GetSectionNames("python_library")[9] == "roadmap"
  {
    assert Templates["python_library"].sections == PythonLibrarySections;
  }

  /** ...and sorts `roadmap` before `testing`. */
  lemma PythonLibraryRendersRoadmapFirst()
    ensures RoadmapBeforeTesting(SortByOrder(Templates["python_library"].sections))
  {
    var s := PythonLibrarySections;
    assert Templates["python_library"].sections == s;
    assert s[8] == TestingSection && s[9] == RoadmapSection;
    RenderOrderPutsRoadmapFirst(s);
  }

  /** In the document of any template with both sections, a visible `roadmap`
      (order 60) comes before a visible `testing` (order 65). */
  lemma RenderedRoadmapBeforeTesting(name: string, ctx: Context, render: Renderer)
    requires RoadmapSection in ResolveTemplate(name).sections && TestingSection in ResolveTemplate(name).sections
    requires var c := RenderTemplate(name, ctx, render).context;
             !Dropped(RoadmapSection, c, render) && !Dropped(TestingSection, c, render)
    ensures var r := RenderTemplate(name, ctx, render);
            var sorted := SortByOrder(ResolveTemplate(name).sections);
            r.text == Join(VisibleTexts(sorted, r.context, render), "\n")
            && ShownBefore(sorted, r.context, render, RoadmapSection, TestingSection)
  {
    LowerOrderShownFirst(ResolveTemplate(name), ctx, render, RoadmapSection, TestingSection);
  }

  /** The Python library document shows `roadmap` before `testing` whenever
      both render visibly, although the template lists them the other way. */
  lemma PythonLibraryDocumentShowsRoadmapFirst(ctx: Context, render: Renderer)
    requires var c := RenderTemplate("python_library", ctx, render).context;
             !Dropped(RoadmapSection, c, render) && !Dropped(TestingSection, c, render)
    ensures var r := RenderTemplate("python_library", ctx, render);
            var sorted := SortByOrder(PythonLibrarySections);
            r.text == Join(VisibleTexts(sorted, r.context, render), "\n")
            && ShownBefore(sorted, r.context, render, RoadmapSection, TestingSection)
  {
    PythonLibraryHasBoth();
    RenderedRoadmapBeforeTesting("python_library", ctx, render);
  }

  lemma PythonLibraryHasBoth()
    ensures ResolveTemplate("python_library").sections == PythonLibrarySections
    ensures RoadmapSection in PythonLibrarySections && TestingSection in PythonLibrarySections
  {
    var s := PythonLibrarySections;
    assert Templates["python_library"].sections == s;
    assert s[8] == TestingSection && s[9] == RoadmapSection;
  }
}
