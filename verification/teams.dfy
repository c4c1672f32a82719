/**
 * `generateMessageCard`: the Microsoft Teams "MessageCard" announcing a release.
 * The wall-clock reading `new Date().toLocaleString()` is the `timestamp` parameter.
 */
module Teams {
  import opened Results

  datatype Fact = Fact(name: string, value: string)

  datatype Section = Section(
    activityTitle: string,
    activitySubtitle: Option<string>,
    activityImage: Option<string>,
    facts: seq<Fact>,
    markdown: bool)

  /** `type` and `context` are the JSON keys `@type` and `@context`. */
  datatype MessageCard = MessageCard(
    typ: string,
    context: string,
    themeColor: string,
    summary: string,
    sections: seq<Section>)

  /** What a release announcement says; every field is a fact of the card. */
  datatype Announcement = Announcement(
    projectName: string,
    tag: string,
    changelog: string,
    releaseManager: string,
    timestamp: string)

  const CardType := "MessageCard"
  const CardContext := "https://schema.org/extensions"
  const ThemeColor := "0078D7"

  /** The fact names, in the order the card lists them. */
  const FactNames: seq<string> := ["Project", "Version", "Released", "Release Manager", "Changelog"]

  function SummaryLine(projectName: string, tag: string): string {
    projectName + " " + tag + " Released"
  }

  function ActivityTitle(projectName: string, tag: string): string {
    "🚀 " + projectName + " version " + tag + " is now on production!"
  }

  /** The value of the first fact with the given name. */
  function FactValue(facts: seq<Fact>, name: string): (r: Option<string>)
    ensures r.None? <==> forall k :: 0 <= k < |facts| ==> facts[k].name != name
    ensures r.Some? ==> exists k :: 0 <= k < |facts| && facts[k] == Fact(name, r.value)
  {
    if |facts| == 0 then None
    else if facts[0].name == name then Some(facts[0].value)
    else
      var r := FactValue(facts[1..], name);
      assert r.Some? ==> exists k :: 0 <= k < |facts[1..]| && facts[1..][k] == Fact(name, r.value);
      assert forall k :: 0 <= k < |facts[1..]| ==> facts[1..][k] == facts[k + 1];
      r
  }

  /**
   * Reads an announcement back from a card by fact name: the partner of
   * `GenerateMessageCard`, which it inverts.
   */
  function ReadAnnouncement(card: MessageCard): Option<Announcement> {
    if |card.sections| != 1 then None
    else
      var facts := card.sections[0].facts;
      match (FactValue(facts, "Project"), FactValue(facts, "Version"), FactValue(facts, "Released"),
             FactValue(facts, "Release Manager"), FactValue(facts, "Changelog"))
      case (Some(p), Some(v), Some(ts), Some(rm), Some(cl)) => Some(Announcement(p, v, cl, rm, ts))
      case _ => None
  }

  /**
   * The shape every generated card has: the fixed header, one markdown section
   * without subtitle or image, the five facts by name in order, and a summary and
   * title that repeat the Project and Version facts.
   */
  ghost predicate WellFormedCard(card: MessageCard) {
    && card.typ == CardType
    && card.context == CardContext
    && card.themeColor == ThemeColor
    && |card.sections| == 1
    && var s := card.sections[0];
    && s.markdown
    && s.activitySubtitle.None?
    && s.activityImage.None?
    && |s.facts| == |FactNames|
    && (forall k :: 0 <= k < |s.facts| ==> s.facts[k].name == FactNames[k])
    && card.summary == SummaryLine(s.facts[0].value, s.facts[1].value)
    && s.activityTitle == ActivityTitle(s.facts[0].value, s.facts[1].value)
  }

  /** `generateMessageCard(projectName, tag, changelog, releaseManager)` at time `timestamp`. */
  function GenerateMessageCard(projectName: string, tag: string, changelog: string,
                               releaseManager: string, timestamp: string): (card: MessageCard)
    ensures WellFormedCard(card)
    ensures var facts := card.sections[0].facts;
            && facts[0].value == projectName && facts[1].value == tag && facts[2].value == timestamp
            && facts[3].value == releaseManager && facts[4].value == changelog
  {
    MessageCard(
      CardType,
      CardContext,
      ThemeColor,
      SummaryLine(projectName, tag),
      [Section(
        ActivityTitle(projectName, tag),
        None,
        None,
        [ Fact("Project", projectName),
          Fact("Version", tag),
          Fact("Released", timestamp),
          Fact("Release Manager", releaseManager),
          Fact("Changelog", changelog) ],
        true)])
  }

  /** The five fact names are pairwise different, so each is found at its own position. */
  lemma FactNamesDistinct()
    ensures forall i, j :: 0 <= i < j < |FactNames| ==> FactNames[i] != FactNames[j]
  {
    assert FactNames[0][0] == 'P' && FactNames[1][0] == 'V' && FactNames[4][0] == 'C';
    assert |FactNames[2]| == 8 && |FactNames[3]| == 15;
  }

  /** The first fact carrying a name is the one `FactValue` reports. */
  lemma FactValueAt(facts: seq<Fact>, k: nat)
    requires k < |facts|
    requires forall j :: 0 <= j < k ==> facts[j].name != facts[k].name
    ensures FactValue(facts, facts[k].name) == Some(facts[k].value)
    decreases k
  {
    if k > 0 {
      FactValueAt(facts[1..], k - 1);
    }
  }

  /** A well-formed card is read back fact by fact. */
  lemma ReadWellFormedCard(card: MessageCard)
    requires WellFormedCard(card)
    ensures var facts := card.sections[0].facts;
            ReadAnnouncement(card) ==
              Some(Announcement(facts[0].value, facts[1].value, facts[4].value, facts[3].value, facts[2].value))
  {
    var facts := card.sections[0].facts;
    FactNamesDistinct();
    FactValueAt(facts, 0);
    FactValueAt(facts, 1);
    FactValueAt(facts, 2);
    FactValueAt(facts, 3);
    FactValueAt(facts, 4);
  }

  /** Round trip: reading a generated card gives back exactly the inputs, the clock reading included. */
  lemma ReadGeneratedCard(a: Announcement)
    ensures ReadAnnouncement(GenerateMessageCard(a.projectName, a.tag, a.changelog, a.releaseManager, a.timestamp))
            == Some(a)
  {
    ReadWellFormedCard(GenerateMessageCard(a.projectName, a.tag, a.changelog, a.releaseManager, a.timestamp));
  }

  /**
   * The shape pins everything but the five values: a well-formed card whose facts read back
   * as an announcement is the card `generateMessageCard` builds for it.
   */
  lemma WellFormedCardIsGenerated(card: MessageCard, a: Announcement)
    requires WellFormedCard(card) && ReadAnnouncement(card) == Some(a)
    ensures card == GenerateMessageCard(a.projectName, a.tag, a.changelog, a.releaseManager, a.timestamp)
  {
    ReadWellFormedCard(card);
    var g := GenerateMessageCard(a.projectName, a.tag, a.changelog, a.releaseManager, a.timestamp);
    var facts, expected := card.sections[0].facts, g.sections[0].facts;
    assert facts[0] == expected[0] && facts[1] == expected[1] && facts[2] == expected[2];
    assert facts[3] == expected[3] && facts[4] == expected[4];
    EqualFacts(facts, expected);
    assert card.sections == g.sections;
  }

  /** Two five-fact lists that agree position by position are equal. */
  lemma EqualFacts(facts: seq<Fact>, expected: seq<Fact>)
    requires |facts| == |expected| == 5
    requires facts[0] == expected[0] && facts[1] == expected[1] && facts[2] == expected[2]
    requires facts[3] == expected[3] && facts[4] == expected[4]
    ensures facts == expected
  {
    assert forall k | 0 <= k < 5 :: facts[k] == expected[k];
  }

  /** Distinct announcements give distinct cards: nothing is lost or merged. */
  lemma GenerateMessageCardInjective(a: Announcement, b: Announcement)
    requires GenerateMessageCard(a.projectName, a.tag, a.changelog, a.releaseManager, a.timestamp)
          == GenerateMessageCard(b.projectName, b.tag, b.changelog, b.releaseManager, b.timestamp)
    ensures a == b
  {
    ReadGeneratedCard(a);
    ReadGeneratedCard(b);
  }

  /** The card with its Released fact set to another clock reading. */
  function WithReleased(card: MessageCard, timestamp: string): MessageCard
    requires |card.sections| == 1 && |card.sections[0].facts| == |FactNames|
  {
    var s := card.sections[0];
    card.(sections := [s.(facts := s.facts[2 := Fact("Released", timestamp)])])
  }

  /** Two cards for the same release at different times differ only in the Released fact. */
  lemma TimestampOnlyChangesReleased(projectName: string, tag: string, changelog: string,
                                     releaseManager: string, t1: string, t2: string)
    ensures var c1 := GenerateMessageCard(projectName, tag, changelog, releaseManager, t1);
            var c2 := GenerateMessageCard(projectName, tag, changelog, releaseManager, t2);
            && c2 == WithReleased(c1, t2)
            && (c1 == c2 <==> t1 == t2)
  {
    var c1 := GenerateMessageCard(projectName, tag, changelog, releaseManager, t1);
    var c2 := GenerateMessageCard(projectName, tag, changelog, releaseManager, t2);
    assert c2.sections[0].facts == c1.sections[0].facts[2 := Fact("Released", t2)];
    if c1 == c2 {
      assert c1.sections[0].facts[2] == c2.sections[0].facts[2];
    }
  }
}
