/** The derived content of `InterviewCard`: the turns of one conversation
    section, the sections that occur, the technology badges of the header,
    and the open state of the collapsible panels. */
module InterviewCard {
  import opened Common
  import opened Records
  import opened Tally
  import Facets

  /** The header shows this many technology badges at most. */
  const MaxBadges: nat := 4

  // -------------------------------------------------------------- sections

  /** `turns.filter(t => t.section === section)`, or null when that is empty. */
  function TurnSection(turns: seq<Turn>, section: string): Option<seq<Turn>>
  {
    var sectionTurns := Filter(turns, (t: Turn) => t.section == section);
    if |sectionTurns| == 0 then None else Some(sectionTurns)
  }

  /** `TurnSection` renders nothing exactly when no turn is in the section;
      otherwise it shows every turn of the section as often as it occurs and
      no other turn. */
  lemma TurnSectionFacts(turns: seq<Turn>, section: string)
    ensures TurnSection(turns, section).None? <==> forall i :: 0 <= i < |turns| ==> turns[i].section != section
    ensures TurnSection(turns, section).Some? ==>
      forall t :: multiset(TurnSection(turns, section).value)[t]
               == if t.section == section then multiset(turns)[t] else 0
  {
    var p := (t: Turn) => t.section == section;
    var r := Filter(turns, p);
    if r != [] {
      assert r[0] in r;
    }
    forall t ensures multiset(r)[t] == if t.section == section then multiset(turns)[t] else 0 {
      FilterCount(turns, p, t);
    }
  }

  /** The shown turns keep the order of the conversation. */
  lemma TurnSectionOrder(a: seq<Turn>, b: seq<Turn>, section: string)
    requires TurnSection(a, section).Some? && TurnSection(b, section).Some?
    ensures TurnSection(a + b, section) == Some(TurnSection(a, section).value + TurnSection(b, section).value)
  {
    FilterAppend(a, b, (t: Turn) => t.section == section);
  }

  /** `interview.turns.map(t => t.section)`. */
  function SectionColumn(turns: seq<Turn>): (ss: seq<string>)
    ensures |ss| == |turns|
    ensures forall i :: 0 <= i < |turns| ==> ss[i] == turns[i].section
  {
    seq(|turns|, i requires 0 <= i < |turns| => turns[i].section)
  }

  /** `[...new Set(interview.turns.map(t => t.section))]`. */
  function Sections(turns: seq<Turn>): seq<string>
  {
    Dedup(SectionColumn(turns))
  }

  /** The sections are listed once each, exactly those some turn belongs
      to, in order of their first turn. */
  lemma SectionsFacts(turns: seq<Turn>)
    ensures Distinct(Sections(turns))
    ensures forall s :: s in Sections(turns) <==> exists i :: 0 <= i < |turns| && turns[i].section == s
    ensures forall i, j :: 0 <= i < j < |Sections(turns)| ==>
      Sections(turns)[i] in SectionColumn(turns) && Sections(turns)[j] in SectionColumn(turns) &&
      FirstIndex(SectionColumn(turns), Sections(turns)[i]) < FirstIndex(SectionColumn(turns), Sections(turns)[j])
  {
    var col := SectionColumn(turns);
    DedupFacts(col);
    forall s ensures s in col <==> exists i :: 0 <= i < |turns| && turns[i].section == s {
      if s in col {
        var i :| 0 <= i < |col| && col[i] == s;
      }
    }
  }

  /** A section's panel is shown (`sections.includes(name)`) exactly when
      its `TurnSection` has turns to show. */
  lemma PanelShownIffTurns(turns: seq<Turn>, section: string)
    ensures section in Sections(turns) <==> TurnSection(turns, section).Some?
  {
    SectionsFacts(turns);
    TurnSectionFacts(turns, section);
  }

  // ---------------------------------------------------------------- header

  /** The header: the first badges, the `+n` overflow badge, and the
      one-based position in the deck. */
  datatype Header = Header(badges: seq<string>, overflow: Option<nat>, shown: int, total: int)

  /** The header of the card at `index` of `total`. */
  function HeaderOf(technologies: seq<string>, index: int, total: int): (h: Header)
    ensures |h.badges| == Min(MaxBadges, |technologies|) && h.badges == technologies[..|h.badges|]
    ensures |technologies| <= MaxBadges ==> h.badges == technologies
    ensures h.overflow.Some? <==> |technologies| > MaxBadges
    ensures h.overflow.Some? ==> |h.badges| + h.overflow.value == |technologies|
    ensures h.shown == index + 1 && h.total == total
  {
    var overflow := if |technologies| > MaxBadges then Some(|technologies| - MaxBadges) else None;
    Header(Facets.Truncate(technologies, MaxBadges), overflow, index + 1, total)
  }

  /** The badge label of a turn. */
  function SpeakerLabel(s: Speaker): (text: string)
    ensures text == "Interviewer" <==> s == Interviewer
    ensures text != "Interviewer" ==> text == "You"
  {
    if s == Interviewer then "Interviewer" else "You"
  }

  // ---------------------------------------------------------------- panels

  /** The collapsible panels of the card. */
  datatype Panel = Context | Introduction | WarmUp | Technical | SystemDesign | Behavioral

  /** The section value a conversation panel shows; the context panel shows
      no section. */
  function PanelSection(p: Panel): Option<string>
  {
    match p
    case Context => None
    case Introduction => Some("intro")
    case WarmUp => Some("warmup")
    case Technical => Some("technical")
    case SystemDesign => Some("system-design")
    case Behavioral => Some("behavioral")
  }

  /** The five open flags of the card; Introduction and Warm-up both use
      `introOpen`. */
  datatype OpenFlags = OpenFlags(context: bool, intro: bool, technical: bool, systemDesign: bool, behavioral: bool)

  /** The flags when the card is first mounted: only the context panel is
      open. The card is not re-mounted when the deck moves to another
      interview, so the flags then carry over. */
  function InitialFlags(): (f: OpenFlags)
    ensures f.context && !f.intro && !f.technical && !f.systemDesign && !f.behavioral
  {
    OpenFlags(true, false, false, false, false)
  }

  /** Whether a panel is open. */
  function IsOpen(f: OpenFlags, p: Panel): bool
  {
    match p
    case Context => f.context
    case Introduction => f.intro
    case WarmUp => f.intro
    case Technical => f.technical
    case SystemDesign => f.systemDesign
    case Behavioral => f.behavioral
  }

  /** A panel's `onOpenChange(open)`. */
  function SetOpen(f: OpenFlags, p: Panel, open: bool): (g: OpenFlags)
    ensures IsOpen(g, p) == open
  {
    match p
    case Context => f.(context := open)
    case Introduction => f.(intro := open)
    case WarmUp => f.(intro := open)
    case Technical => f.(technical := open)
    case SystemDesign => f.(systemDesign := open)
    case Behavioral => f.(behavioral := open)
  }

  /** Opening or closing a panel moves Introduction and Warm-up together and
      leaves every other panel as it was. */
  lemma SetOpenEffect(f: OpenFlags, p: Panel, open: bool, q: Panel)
    ensures IsOpen(SetOpen(f, p, open), Introduction) == IsOpen(SetOpen(f, p, open), WarmUp)
    ensures IsOpen(f, Introduction) == IsOpen(f, WarmUp)
    ensures (p == q || (p in {Introduction, WarmUp} && q in {Introduction, WarmUp}))
        ==> IsOpen(SetOpen(f, p, open), q) == open
    ensures !(p == q || (p in {Introduction, WarmUp} && q in {Introduction, WarmUp}))
        ==> IsOpen(SetOpen(f, p, open), q) == IsOpen(f, q)
  {
  }
}
