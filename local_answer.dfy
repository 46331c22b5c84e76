/** localAnswer: the chat's built-in responder. The message is lower-cased and
    tested against three keyword alternations in a fixed order (projects, then
    skills, then contact); the first that matches picks the reply, and a
    message matching none gets a generic invitation. */
module LocalResponder {
  import opened Wrappers
  import opened Text
  import opened Catalog

  /** The alternatives of the three regular expressions, in source order. */
  const ProjectKeywords: seq<string> := ["مشاريع", "projects", "portfolio", "work"]
  const SkillKeywords: seq<string> := ["مهارات", "skills", "tools"]
  const ContactKeywords: seq<string> := ["تواصل", "contact", "email"]

  /** The canned replies, kept verbatim. */
  const ProjectsIntro := "عندي أمثلة على مشاريع اختبار:"
  const SkillsReply := "المهارات: Manual (TestRail, Excel)، Automation (Playwright, WebDriverIO, Cypress, Selenium)، تقارير mochawesome و HTML."
  const ContactReply := "للتواصل: GitHub الخاص بي موجود أعلى الصفحة. أضف بريدك في قسم التواصل."
  const GeneralReply := "أقدر أشرح مشاريعي ومهاراتي. اسألني عن مشروع أو أداة محددة 👇"

  /** How many catalog records the projects reply lists at most. */
  const HighlightLimit := 5

  datatype Intent = AboutProjects | AboutSkills | AboutContact | General

  /** Whether the regular expression built from these alternatives matches msg. */
  predicate MentionsAny(msg: string, keywords: seq<string>) {
    exists w :: w in keywords && Contains(msg, w)
  }

  /** The branch localAnswer takes. */
  function IntentOf(message: string): Intent {
    var msg := ToLower(message);
    if MentionsAny(msg, ProjectKeywords) then AboutProjects
    else if MentionsAny(msg, SkillKeywords) then AboutSkills
    else if MentionsAny(msg, ContactKeywords) then AboutContact
    else General
  }

  /** One line of the projects reply: `- {title}: {description}`. */
  function Highlight(p: Project): string {
    "- " + p.title + ": " + p.description
  }

  /** `projects.slice(0, 5)`: the first five entries, or all of them when
      there are fewer. */
  function Top(entries: seq<Entry>): (top: seq<Entry>)
    ensures |top| == if |entries| < HighlightLimit then |entries| else HighlightLimit
    ensures top == entries[..|top|]
  {
    if |entries| < HighlightLimit then entries else entries[..HighlightLimit]
  }

  /** `.map((p) => ...)` over those entries: one line per record, in catalog
      order. Reading `p.title` of a null entry throws, so a null among the
      first five rejects. */
  function Highlights(entries: seq<Entry>): (r: Result<seq<string>, CatalogError>)
    ensures r.Success? <==> forall i :: 0 <= i < |entries| && i < HighlightLimit ==> entries[i].Record?
    ensures r.Failure? ==> r.error == NullEntry
    ensures r.Success? ==>
      && |r.value| == |Top(entries)|
      && forall i :: 0 <= i < |r.value| ==> entries[i].Record? && r.value[i] == Highlight(entries[i].project)
  {
    var top := Top(entries);
    if forall i :: 0 <= i < |top| ==> top[i].Record? then
      Success(seq(|top|, i requires 0 <= i < |top| => Highlight(top[i].project)))
    else
      Failure(NullEntry)
  }

  /** The projects reply: the intro, a newline, and the highlight lines joined
      by newlines. */
  function ProjectsReply(lines: seq<string>): string {
    ProjectsIntro + "\n" + Join(lines, "\n")
  }

  /** The projects branch of localAnswer: read the catalog, format its first
      five entries and put the intro before them. */
  function ProjectsAnswer(source: CatalogSource): (r: Result<string, CatalogError>)
    ensures r.Success? ==> r.value != ""
  {
    match ResolveCatalog(source)
    case Failure(e) => Failure(e)
    case Success(entries) =>
      match Highlights(entries)
      case Failure(e) => Failure(e)
      case Success(lines) => Success(ProjectsReply(lines))
  }

  /** localAnswer(message) with the catalog read by its projects branch given
      as `source`. A Failure is the promise rejecting: the projects branch got
      a document that is not a list, fell back on embedded text that is not
      JSON, or met a null among the records it formats. */
  function LocalAnswer(message: string, source: CatalogSource): (r: Result<string, CatalogError>)
    ensures r.Success? ==> r.value != ""
  {
    match IntentOf(message)
    case AboutProjects => ProjectsAnswer(source)
    case AboutSkills => Success(SkillsReply)
    case AboutContact => Success(ContactReply)
    case General => Success(GeneralReply)
  }

  /** The projects branch rejects with the catalog's own error when the
      catalog does not resolve, rejects with NullEntry exactly when one of
      the first five entries is null, and otherwise gives the intro and the
      formatted lines. */
  lemma ProjectsAnswerCases(source: CatalogSource)
    ensures ResolveCatalog(source).Failure? ==>
      ProjectsAnswer(source) == Failure(ResolveCatalog(source).error)
    ensures ResolveCatalog(source).Success? ==>
      var entries := ResolveCatalog(source).value;
      && (ProjectsAnswer(source) == Failure(NullEntry) <==>
            exists i :: 0 <= i < |entries| && i < HighlightLimit && entries[i].Null?)
      && (Highlights(entries).Success? ==>
            ProjectsAnswer(source) == Success(ProjectsIntro + "\n" + Join(Highlights(entries).value, "\n")))
  {
  }

  /** Entries after the fifth are never read: they cannot change the lines,
      and a null among them does not reject. */
  lemma LaterEntriesIgnored(entries: seq<Entry>, rest: seq<Entry>)
    requires |entries| >= HighlightLimit
    ensures Highlights(entries + rest) == Highlights(entries)
  {
    assert (entries + rest)[..HighlightLimit] == entries[..HighlightLimit];
  }

  /** localAnswer rejects only on the projects branch, when that branch
      rejects; on every other path it gives a string. */
  lemma FailsOnlyOnCatalog(message: string, source: CatalogSource)
    ensures LocalAnswer(message, source).Failure? <==>
      IntentOf(message) == AboutProjects && ProjectsAnswer(source).Failure?
  {
  }

  /** Only the projects branch reads the catalog: every other reply is the same
      whatever the fetch would have given. */
  lemma OnlyProjectsReadCatalog(message: string, s1: CatalogSource, s2: CatalogSource)
    requires IntentOf(message) != AboutProjects
    ensures LocalAnswer(message, s1) == LocalAnswer(message, s2)
    ensures LocalAnswer(message, s1).Success?
  {
  }

  /** The reply to each intent. */
  lemma LocalAnswerByIntent(message: string, source: CatalogSource)
    ensures IntentOf(message) == AboutSkills ==> LocalAnswer(message, source) == Success(SkillsReply)
    ensures IntentOf(message) == AboutContact ==> LocalAnswer(message, source) == Success(ContactReply)
    ensures IntentOf(message) == General ==> LocalAnswer(message, source) == Success(GeneralReply)
    ensures IntentOf(message) == AboutProjects ==> LocalAnswer(message, source) == ProjectsAnswer(source)
  {
  }

  /** Matching is case-insensitive: the message and its lower-cased form get
      the same reply. */
  lemma CaseInsensitive(message: string, source: CatalogSource)
    ensures IntentOf(ToLower(message)) == IntentOf(message)
    ensures LocalAnswer(ToLower(message), source) == LocalAnswer(message, source)
  {
    ToLowerIdempotent(message);
  }

  /** Keywords are matched as plain substrings in any letter case: a message
      with a projects keyword anywhere in it, in any casing, is about projects,
      however the rest of the message reads. */
  lemma ProjectsWin(before: string, word: string, after: string)
    requires ToLower(word) in ProjectKeywords
    ensures IntentOf(before + word + after) == AboutProjects
  {
    Found(before, word, after);
  }

  /** A skills keyword decides the reply when no projects keyword occurs. */
  lemma SkillsSecond(before: string, word: string, after: string)
    requires ToLower(word) in SkillKeywords
    requires !MentionsAny(ToLower(before + word + after), ProjectKeywords)
    ensures IntentOf(before + word + after) == AboutSkills
  {
    Found(before, word, after);
  }

  /** A contact keyword decides the reply when no projects or skills keyword
      occurs. */
  lemma ContactThird(before: string, word: string, after: string)
    requires ToLower(word) in ContactKeywords
    requires !MentionsAny(ToLower(before + word + after), ProjectKeywords)
    requires !MentionsAny(ToLower(before + word + after), SkillKeywords)
    ensures IntentOf(before + word + after) == AboutContact
  {
    Found(before, word, after);
  }

  /** The generic reply is given exactly when no keyword of any intent occurs. */
  lemma GeneralWhenNoKeyword(message: string)
    ensures IntentOf(message) == General <==>
      forall w :: w in ProjectKeywords + SkillKeywords + ContactKeywords ==> !Contains(ToLower(message), w)
  {
    var all := ProjectKeywords + SkillKeywords + ContactKeywords;
    assert forall w :: w in all <==> (w in ProjectKeywords || w in SkillKeywords || w in ContactKeywords);
  }

  /** The lower-cased message contains the lower-cased word. */
  lemma Found(before: string, word: string, after: string)
    ensures Contains(ToLower(before + word + after), ToLower(word))
  {
    ToLowerAppend(before + word, after);
    ToLowerAppend(before, word);
    ContainsInfix(ToLower(before), ToLower(word), ToLower(after));
  }

  /** When none of the first five entries is null, the projects reply is the
      intro, a newline and one line for each of the first min(5, |entries|)
      records, in order, each as `- title: description`. */
  lemma ProjectsReplyLines(entries: seq<Entry>)
    requires forall i :: 0 <= i < |entries| && i < HighlightLimit ==> entries[i].Record?
    ensures Highlights(entries).Success?
    ensures var lines := Highlights(entries).value;
      && |lines| == (if |entries| < HighlightLimit then |entries| else HighlightLimit)
      && (forall i :: 0 <= i < |lines| ==>
            lines[i] == "- " + entries[i].project.title + ": " + entries[i].project.description)
      && ProjectsReply(lines) == ProjectsIntro + "\n" + Join(lines, "\n")
  {
  }

  /** With no catalog (a failed fetch and no embedded data) the projects reply
      is the intro and a newline, with no lines and no error. */
  lemma EmptyCatalogReply(message: string, node: EmbeddedNode)
    requires IntentOf(message) == AboutProjects
    requires node == NoNode || node == EmptyText
    ensures LocalAnswer(message, FetchFailed(node)) == Success(ProjectsIntro + "\n")
  {
    assert ResolveCatalog(FetchFailed(node)) == Success([]);
    assert Highlights([]) == Success([]);
    assert Join([], "\n") == "";
    assert ProjectsReply([]) == ProjectsIntro + "\n";
  }

  /** The keywords are written in lower case, so lower-casing the message is
      all it takes for matching to ignore case. */
  lemma KeywordsAreLowerCase(w: string)
    requires w in ProjectKeywords + SkillKeywords + ContactKeywords
    ensures ToLower(w) == w
  {
    ToLowerNoCapitals(w);
  }

  /** Worked examples: a question about projects, a keyword inside a longer
      word, an upper-case keyword, and a message naming both skills and
      projects. */
  lemma ExampleQuestion()
    ensures IntentOf("my projects") == AboutProjects
  {
    KeywordsAreLowerCase("projects");
    ProjectsWin("my ", "projects", "");
    assert "my projects" == "my " + "projects" + "";
  }

  lemma ExampleInsideWord()
    ensures IntentOf("homework") == AboutProjects
  {
    KeywordsAreLowerCase("work");
    ProjectsWin("home", "work", "");
    assert "homework" == "home" + "work" + "";
  }

  lemma ExampleUpperCase()
    ensures IntentOf("WORK") == AboutProjects
  {
    assert ToLower("WORK") == "work";
    ProjectsWin("", "WORK", "");
    assert "WORK" == "" + "WORK" + "";
  }

  lemma ExampleProjectsBeforeSkills()
    ensures IntentOf("tools work") == AboutProjects
  {
    KeywordsAreLowerCase("work");
    ProjectsWin("tools ", "work", "");
    assert "tools work" == "tools " + "work" + "";
  }
}
