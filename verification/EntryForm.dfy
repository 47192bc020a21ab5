/** The entry-creation form: its event handlers, and what a submission contains. */
module EntryForm {
  import opened Wrappers
  import opened Sequences
  import opened Text
  import opened Spiffe
  import opened Association

  // In two parts, which show the verifier how the text begins.
  const MANUAL_OPTION := "----" + "Select this option and Enter Custom Parent ID Below----"

  datatype Form = Form(
    spiffeId: string, spiffeIdTrustDomain: string, spiffeIdPath: string,
    parentId: string, parentIdTrustDomain: string, parentIdPath: string,
    parentIDManualEntry: bool, spiffeIdPrefix: string, message: string,
    selectors: string, federatesWith: string, dnsNames: string)

  const BLANK := Form("", "", "", "", "", "", false, "", "", "", "", "")

  datatype Event =
    | ChangeSpiffeId(text: string)
    | ChangeParentId(selected: string)
    | ChangeManualParentId(text: string)
    | ChangeSelectors(text: string)
    | ChangeFederatesWith(text: string)
    | ChangeDnsNames(text: string)

  /** sid.replace(/\n/g, ","). */
  function NewlinesToCommas(s: string): (r: string)
    ensures |r| == |s| && forall i | 0 <= i < |s| :: r[i] == if s[i] == '\n' then ',' else s[i]
  {
    seq(|s|, i requires 0 <= i < |s| => if s[i] == '\n' then ',' else s[i])
  }

  function TypeParentId(f: Form, sid: string): Form {
    if |sid| == 0 then f.(parentId := sid, parentIdTrustDomain := "", parentIdPath := "", message := "")
    else match Parse(sid)
      case Some((td, path)) =>
        f.(parentId := sid, parentIdTrustDomain := td, parentIdPath := path, message := "",
           spiffeIdPrefix := PREFIX + td + "/")
      case None =>
        f.(parentId := sid, parentIdTrustDomain := "", parentIdPath := "", message := "Invalid Parent ID")
  }

  function Next(f: Form, e: Event): Form {
    match e
    case ChangeSpiffeId(sid) =>
      if |sid| == 0 then f.(spiffeId := sid, spiffeIdTrustDomain := "", spiffeIdPath := "", message := "")
      else (match Parse(sid)
        case Some((td, path)) => f.(spiffeId := sid, spiffeIdTrustDomain := td, spiffeIdPath := path, message := "")
        case None =>
          f.(spiffeId := sid, spiffeIdTrustDomain := "", spiffeIdPath := "", message := "Invalid Spiffe ID"))
    case ChangeParentId(sid) =>
      if |sid| == 0 then TypeParentId(f, sid)
      else if sid == MANUAL_OPTION then f.(parentIDManualEntry := true, spiffeIdPrefix := "", parentId := sid)
      else TypeParentId(f.(parentIDManualEntry := false), sid)
    case ChangeManualParentId(sid) => TypeParentId(f, sid)
    case ChangeSelectors(text) => f.(selectors := NewlinesToCommas(text))
    case ChangeFederatesWith(text) => f.(federatesWith := text)
    case ChangeDnsNames(text) => f.(dnsNames := text)
  }

  function After(events: seq<Event>): Form {
    if events == [] then BLANK
    else Next(After(events[..|events| - 1]), events[|events| - 1])
  }

  // ----- Submission

  datatype Rejection =
    | ParentEmpty | SpiffeIdEmpty | ParentInvalid | SpiffeIdInvalid | SelectorsEmpty | SelectorsMalformed | NoServer

  datatype Submission = Submission(
    spiffeId: SpiffeId, parentId: SpiffeId, selectors: seq<Selector>,
    federatesWith: seq<string>, dnsNames: seq<string>)

  predicate WellFormedSelector(x: string) {
    ParseSelector(x).Some? && ParseSelector(x).value.value != ""
  }

  function Submit(f: Form, endpoint: string): Result<Submission, Rejection> {
    if f.parentId == "" then Err(ParentEmpty)
    else if f.spiffeId == "" then Err(SpiffeIdEmpty)
    else if Parse(f.parentId).None? then Err(ParentInvalid)
    else if Parse(f.spiffeId).None? then Err(SpiffeIdInvalid)
    else
      var parts := Parts(f.selectors);
      if |parts| == 0 then Err(SelectorsEmpty)
      else if exists x | x in parts :: !WellFormedSelector(x) then Err(SelectorsMalformed)
      else if endpoint == "" then Err(NoServer)
      else Ok(Submission(
        Of(f.spiffeIdTrustDomain, f.spiffeIdPath), Of(f.parentIdTrustDomain, f.parentIdPath),
        Map(SelectorOf, parts), Parts(f.federatesWith), Parts(f.dnsNames)))
  }

  // ----- What every run of events keeps

  /** The stored parts are those the displayed text parses to, or both empty. */
  ghost predicate InSync(displayed: string, td: string, path: string) {
    (td, path) == if Parse(displayed).Some? then Parse(displayed).value else ("", "")
  }

  /** The text is an ID: the prefix and a canonical pair. */
  ghost predicate IsId(sid: string) {
    exists td, path :: Canonical(td, path) && sid == PREFIX + td + path
  }

  /** The parts of the ID that a text is, both empty for a text that is none. */
  ghost predicate PartsOf(sid: string, td: string, path: string) {
    if IsId(sid) then Canonical(td, path) && sid == PREFIX + td + path else td == "" && path == ""
  }

  /** Parsing finds them: the stored parts are in sync exactly when they are the text's parts. */
  lemma PartsAreParsed(sid: string)
    ensures Parse(sid).Some? <==> IsId(sid)
    ensures forall td, path :: PartsOf(sid, td, path) <==> InSync(sid, td, path)
  {
    ParseAccepts(sid);
    if Parse(sid).Some? {
      PrintAfterParse(sid);
    }
    forall td, path | Canonical(td, path) && sid == PREFIX + td + path ensures Parse(sid) == Some((td, path)) {
      ParseOfText(td, path);
    }
    hide Parse;
  }

  /** Only while the manual option itself is displayed may the parent's parts be stale. */
  ghost predicate FormInSync(f: Form) {
    && InSync(f.spiffeId, f.spiffeIdTrustDomain, f.spiffeIdPath)
    && (f.parentId == MANUAL_OPTION || InSync(f.parentId, f.parentIdTrustDomain, f.parentIdPath))
  }

  lemma EmptyDoesNotParse()
    ensures Parse("").None?
  {
  }

  lemma NextStaysInSync(f: Form, e: Event)
    ensures FormInSync(f) ==> FormInSync(Next(f, e))
  {
    hide Parse;
    EmptyDoesNotParse();
  }

  /** Every run of events keeps the form in sync. */
  lemma {:induction false} FormStaysInSync(events: seq<Event>)
    ensures FormInSync(After(events))
  {
    if events == [] {
      EmptyDoesNotParse();
    } else {
      hide InSync;
      hide Next;
      FormStaysInSync(events[..|events| - 1]);
      NextStaysInSync(After(events[..|events| - 1]), events[|events| - 1]);
    }
  }

  lemma ManualOptionDoesNotParse()
    ensures Parse(MANUAL_OPTION).None?
  {
    assert MANUAL_OPTION[0] == '-' && PREFIX[0] == 's';
  }

  lemma SyncedSubmission(f: Form, endpoint: string)
    requires Submit(f, endpoint).Ok? && FormInSync(f)
    ensures var s := Submit(f, endpoint).value;
      && Print(s.spiffeId) == f.spiffeId
      && Print(s.parentId) == f.parentId
      && Canonical(f.spiffeIdTrustDomain, f.spiffeIdPath)
      && Canonical(f.parentIdTrustDomain, f.parentIdPath)
  {
    hide Parse;
    hide Print;
    hide Parts;
    hide CheckSpiffeIdValidity;
    ManualOptionDoesNotParse();
    PrintAfterParse(f.spiffeId);
    PrintAfterParse(f.parentId);
  }

  /** Whatever was typed and selected before, an accepted form submits IDs that print to the displayed texts. */
  lemma SubmissionIsWhatIsDisplayed(events: seq<Event>, endpoint: string)
    requires Submit(After(events), endpoint).Ok?
    ensures var f := After(events); var s := Submit(f, endpoint).value;
      && Print(s.spiffeId) == f.spiffeId
      && Print(s.parentId) == f.parentId
      && Canonical(f.spiffeIdTrustDomain, f.spiffeIdPath)
      && Canonical(f.parentIdTrustDomain, f.parentIdPath)
  {
    FormStaysInSync(events);
    SyncedSubmission(After(events), endpoint);
  }

  /** The submitted selectors are, one for one and in order, the trimmed pieces of the selector text. */
  lemma SubmittedSelectors(f: Form, endpoint: string)
    requires Submit(f, endpoint).Ok?
    ensures var s := Submit(f, endpoint).value.selectors; var pieces := Split(f.selectors, ',');
      && |s| == |pieces|
      && forall i | 0 <= i < |s| ::
           && FormatSelector(s[i]) == Trim(pieces[i])
           && s[i].kind != "" && ':' !in s[i].kind && s[i].value != ""
  {
    var parts := Parts(f.selectors);
    forall i | 0 <= i < |parts|
      ensures FormatSelector(SelectorOf(parts[i])) == parts[i]
      ensures SelectorOf(parts[i]).kind != "" && ':' !in SelectorOf(parts[i]).kind && SelectorOf(parts[i]).value != ""
    {
      assert parts[i] in parts;
      ParseSelectorSplits(parts[i]);
    }
  }

  /** The text is a selector written out, with a non-empty type without a colon and a non-empty value. */
  ghost predicate IsTypeValue(x: string) {
    exists s: Selector :: s.kind != "" && ':' !in s.kind && s.value != "" && x == FormatSelector(s)
  }

  lemma WellFormedIsTypeValue(x: string)
    ensures WellFormedSelector(x) <==> IsTypeValue(x)
  {
    ParseSelectorSplits(x);
    if IsTypeValue(x) {
      var s: Selector :| s.kind != "" && ':' !in s.kind && s.value != "" && x == FormatSelector(s);
      ParseAfterFormat(s);
    }
  }

  lemma PartsAreTypeValue(text: string)
    ensures |Parts(text)| == 0 <==> text == ""
    ensures text != "" ==>
      ((forall x | x in Parts(text) :: WellFormedSelector(x)) <==>
       (forall p | p in Split(text, ',') :: IsTypeValue(Trim(p))))
  {
    hide IsTypeValue;
    hide WellFormedSelector;
    hide Trim;
    var pieces, parts := Split(text, ','), Parts(text);
    if text != "" {
      forall p | p in pieces ensures Trim(p) in parts && (WellFormedSelector(Trim(p)) <==> IsTypeValue(Trim(p))) {
        var i :| 0 <= i < |pieces| && pieces[i] == p;
        assert parts[i] == Trim(p);
        WellFormedIsTypeValue(Trim(p));
      }
      forall x | x in parts ensures exists p | p in pieces :: x == Trim(p) {
        var i :| 0 <= i < |parts| && parts[i] == x;
        assert pieces[i] in pieces && x == Trim(pieces[i]);
      }
    }
  }

  /** A form is accepted exactly when both displayed IDs parse and every piece of its selector text is type:value. */
  lemma AcceptedExactly(f: Form, endpoint: string)
    ensures Submit(f, endpoint).Ok? <==>
      && endpoint != ""
      && Parse(f.parentId).Some? && Parse(f.spiffeId).Some?
      && f.selectors != ""
      && forall p | p in Split(f.selectors, ',') :: IsTypeValue(Trim(p))
  {
    EmptyDoesNotParse();
    PartsAreTypeValue(f.selectors);
    hide Parse;
    hide Parts;
    hide Split;
    hide Trim;
    hide SelectorOf;
    hide WellFormedSelector;
    hide IsTypeValue;
  }

  lemma SubmitMeans(f: Form, endpoint: string)
    ensures var r := Submit(f, endpoint);
      && (r.Ok? <==>
            && endpoint != "" && IsId(f.parentId) && IsId(f.spiffeId)
            && f.selectors != "" && forall p | p in Split(f.selectors, ',') :: IsTypeValue(Trim(p)))
      && (r.Ok? ==> Map(FormatSelector, r.value.selectors) == Map(Trim, Split(f.selectors, ',')))
      && (r.Ok? ==>
            && ReadsSpaced(f.selectors, Map(FormatSelector, r.value.selectors))
            && ReadsSpaced(f.federatesWith, r.value.federatesWith) && ReadsSpaced(f.dnsNames, r.value.dnsNames))
      && (r.Ok? && FormInSync(f) ==> Print(r.value.spiffeId) == f.spiffeId && Print(r.value.parentId) == f.parentId)
  {
    PartsReadSpaced(f.selectors);
    PartsReadSpaced(f.federatesWith);
    PartsReadSpaced(f.dnsNames);
    hide ReadsSpaced;
    AcceptedExactly(f, endpoint);
    PartsAreParsed(f.parentId);
    PartsAreParsed(f.spiffeId);
    if Submit(f, endpoint).Ok? {
      SubmittedSelectors(f, endpoint);
      if FormInSync(f) {
        SyncedSubmission(f, endpoint);
      }
    }
    hide Submit;
    hide Parse;
    hide Trim;
    hide Split;
    hide IsTypeValue;
  }

  /** What a refused form is refused for, in the order of the checks. */
  lemma RefusedFor(f: Form, endpoint: string)
    ensures var r := Submit(f, endpoint); var ids := IsId(f.parentId) && IsId(f.spiffeId);
      && (r == Err(ParentEmpty) <==> f.parentId == "")
      && (r == Err(SpiffeIdEmpty) <==> f.parentId != "" && f.spiffeId == "")
      && (r == Err(ParentInvalid) <==> f.parentId != "" && f.spiffeId != "" && !IsId(f.parentId))
      && (r == Err(SpiffeIdInvalid) <==> IsId(f.parentId) && f.spiffeId != "" && !IsId(f.spiffeId))
      && (r == Err(SelectorsEmpty) <==> ids && f.selectors == "")
      && (r == Err(SelectorsMalformed) <==>
            ids && f.selectors != "" && exists p | p in Split(f.selectors, ',') :: !IsTypeValue(Trim(p)))
  {
    EmptyDoesNotParse();
    PartsAreParsed(f.parentId);
    PartsAreParsed(f.spiffeId);
    PartsAreTypeValue(f.selectors);
    hide Parse;
    hide IsId;
    hide Parts;
    hide Split;
    hide Trim;
    hide IsTypeValue;
    hide WellFormedSelector;
  }

  /** Choosing manual entry keeps the parts of the parent chosen before; the form is then not accepted. */
  lemma ManualEntryLeavesStaleParent(td: string, path: string, endpoint: string)
    requires Canonical(td, path)
    ensures var f := After([ChangeParentId(PREFIX + td + path), ChangeParentId(MANUAL_OPTION)]);
      && f.parentId == MANUAL_OPTION && f.parentIdTrustDomain == td && f.parentIdPath == path
      && Submit(f, endpoint).Err?
  {
    var e1, e2 := ChangeParentId(PREFIX + td + path), ChangeParentId(MANUAL_OPTION);
    ParseOfText(td, path);
    ManualOptionDoesNotParse();
    assert [e1, e2][..1] == [e1] && [e1][..0] == [];
    assert After([e1]) == Next(BLANK, e1);
    assert After([e1, e2]) == Next(After([e1]), e2);
  }

  // ----- From what is typed to what is submitted

  function Line(s: Selector): string {
    FormatSelector(s)
  }

  /** A selector that can stand on a line of the selector field. */
  predicate Writable(s: Selector) {
    && s.kind != "" && ':' !in s.kind && s.value != ""
    && ',' !in Line(s) && '\n' !in Line(s) && Trim(Line(s)) == Line(s)
  }

  lemma NewlinesOfAppend(a: string, b: string)
    ensures NewlinesToCommas(a + b) == NewlinesToCommas(a) + NewlinesToCommas(b)
    ensures '\n' !in a ==> NewlinesToCommas(a) == a
  {
  }

  lemma {:induction false} LinesBecomeCommas(lines: seq<string>)
    requires Free(lines, '\n')
    ensures NewlinesToCommas(Join(lines, '\n')) == Join(lines, ',')
  {
    if |lines| == 1 {
      assert lines[0] in lines;
      NewlinesOfAppend(lines[0], "");
    } else if |lines| > 1 {
      assert lines == [lines[0]] + lines[1..];
      FreeCons(lines[0], lines[1..], '\n');
      LinesBecomeCommas(lines[1..]);
      var rest := Join(lines[1..], '\n');
      NewlinesOfAppend(lines[0] + "\n", rest);
      NewlinesOfAppend(lines[0], "\n");
      assert NewlinesToCommas("\n") == ",";
    }
  }

  /** Writable selectors typed one to a line are found again, piece by piece. */
  lemma LinesAreParts(selectors: seq<Selector>)
    requires selectors != [] && forall s | s in selectors :: Writable(s)
    ensures var lines := Map(Line, selectors);
      && Parts(NewlinesToCommas(Join(lines, '\n'))) == lines && Map(SelectorOf, lines) == selectors
      && forall l | l in lines :: WellFormedSelector(l)
  {
    var lines := Map(Line, selectors);
    hide Trim;
    hide Parts;
    forall l | l in lines ensures ',' !in l && '\n' !in l && Trim(l) == l && l != "" {
      var i :| 0 <= i < |selectors| && lines[i] == l;
      assert Writable(selectors[i]) && l == selectors[i].kind + ":" + selectors[i].value;
    }
    LinesBecomeCommas(lines);
    assert lines != [""] by { assert lines[0] in lines; }
    PartsOfJoin(lines);
    forall i | 0 <= i < |lines| ensures WellFormedSelector(lines[i]) && SelectorOf(lines[i]) == selectors[i] {
      assert selectors[i] in selectors && Writable(selectors[i]);
      ParseAfterFormat(selectors[i]);
    }
    assert Map(SelectorOf, lines) == selectors;
  }

  /** Selectors typed one to a line, and names typed with commas, are submitted as the lists they stand for. */
  lemma TypedIsSubmitted(
    f: Form, endpoint: string, selectors: seq<Selector>, federates: seq<string>, dns: seq<string>)
    requires selectors != [] && forall s | s in selectors :: Writable(s)
    requires federates != [""] && forall n | n in federates :: ',' !in n && Trim(n) == n
    requires dns != [""] && forall n | n in dns :: ',' !in n && Trim(n) == n
    requires f.selectors == NewlinesToCommas(Join(Map(Line, selectors), '\n'))
    requires f.federatesWith == Join(federates, ',') && f.dnsNames == Join(dns, ',')
    requires Parse(f.parentId).Some? && Parse(f.spiffeId).Some? && endpoint != ""
    ensures var r := Submit(f, endpoint);
      r.Ok? && r.value.selectors == selectors && r.value.federatesWith == federates && r.value.dnsNames == dns
  {
    EmptyDoesNotParse();
    LinesAreParts(selectors);
    PartsOfJoin(federates);
    PartsOfJoin(dns);
    assert Map(Line, selectors) != [];
    hide Parse;
    hide Trim;
    hide Parts;
    hide Map;
    hide Join;
    hide WellFormedSelector;
  }

  // ----- The component

  class CreateEntry {
    var spiffeId: string
    var spiffeIdTrustDomain: string
    var spiffeIdPath: string
    var parentId: string
    var parentIdTrustDomain: string
    var parentIdPath: string
    var parentIDManualEntry: bool
    var spiffeIdPrefix: string
    var message: string
    var selectors: string
    var federatesWith: string
    var dnsNames: string

    function State(): Form
      reads this
    {
      Form(spiffeId, spiffeIdTrustDomain, spiffeIdPath, parentId, parentIdTrustDomain, parentIdPath,
           parentIDManualEntry, spiffeIdPrefix, message, selectors, federatesWith, dnsNames)
    }

    constructor ()
      ensures State() == BLANK
    {
      spiffeId, spiffeIdTrustDomain, spiffeIdPath := "", "", "";
      parentId, parentIdTrustDomain, parentIdPath := "", "", "";
      parentIDManualEntry, spiffeIdPrefix, message := false, "", "";
      selectors, federatesWith, dnsNames := "", "", "";
    }

    /** The text is displayed, its parts are stored, and the message complains exactly of a text that is no ID. */
    method OnChangeSpiffeId(sid: string)
      modifies this
      ensures State() == Next(old(State()), ChangeSpiffeId(sid))
      ensures spiffeId == sid && PartsOf(sid, spiffeIdTrustDomain, spiffeIdPath)
      ensures message == "" <==> sid == "" || IsId(sid)
      ensures State() == old(State()).(
        spiffeId := spiffeId, spiffeIdTrustDomain := spiffeIdTrustDomain, spiffeIdPath := spiffeIdPath,
        message := message)
      ensures old(FormInSync(State())) ==> FormInSync(State())
    {
      EmptyDoesNotParse();
      PartsAreParsed(sid);
      NextStaysInSync(State(), ChangeSpiffeId(sid));
      hide Parse;
      hide IsId;
      hide PartsOf;
      hide FormInSync;
      spiffeId := sid;
      if |sid| == 0 {
        spiffeIdTrustDomain, spiffeIdPath, message := "", "", "";
        return;
      }
      match Parse(sid)
      case Some((td, path)) =>
        message, spiffeIdTrustDomain, spiffeIdPath := "", td, path;
      case None =>
        message, spiffeIdTrustDomain, spiffeIdPath := "Invalid Spiffe ID", "", "";
    }

    /** As for the SPIFFE ID, and the prefix offered for it follows; choosing manual entry leaves the parts alone. */
    method OnChangeParentId(selected: string)
      modifies this
      ensures State() == Next(old(State()), ChangeParentId(selected))
      ensures parentId == selected
      ensures selected == MANUAL_OPTION ==>
        State() == old(State()).(parentId := selected, parentIDManualEntry := true, spiffeIdPrefix := "")
      ensures selected != MANUAL_OPTION ==>
        && PartsOf(selected, parentIdTrustDomain, parentIdPath)
        && (message == "" <==> selected == "" || IsId(selected))
        && parentIDManualEntry == (selected == "" && old(parentIDManualEntry))
        && spiffeIdPrefix == if IsId(selected) then PREFIX + parentIdTrustDomain + "/" else old(spiffeIdPrefix)
      ensures old(FormInSync(State())) ==> FormInSync(State())
    {
      EmptyDoesNotParse();
      PartsAreParsed(selected);
      NextStaysInSync(State(), ChangeParentId(selected));
      hide Parse;
      hide IsId;
      hide PartsOf;
      hide FormInSync;
      if |selected| == 0 {
        parentId, parentIdTrustDomain, parentIdPath, message := selected, "", "", "";
        return;
      }
      if selected == MANUAL_OPTION {
        parentIDManualEntry, spiffeIdPrefix, parentId := true, "", selected;
        return;
      }
      parentIDManualEntry := false;
      match Parse(selected)
      case Some((td, path)) =>
        message, parentId, parentIdTrustDomain, parentIdPath := "", selected, td, path;
        spiffeIdPrefix := PREFIX + td + "/";
      case None =>
        parentId, message, parentIdTrustDomain, parentIdPath := selected, "Invalid Parent ID", "", "";
    }

    /** Typed text replaces whatever parts a choice had left behind. */
    method OnChangeManualParentId(sid: string)
      modifies this
      ensures State() == Next(old(State()), ChangeManualParentId(sid))
      ensures parentId == sid && PartsOf(sid, parentIdTrustDomain, parentIdPath)
      ensures message == "" <==> sid == "" || IsId(sid)
      ensures spiffeIdPrefix == if IsId(sid) then PREFIX + parentIdTrustDomain + "/" else old(spiffeIdPrefix)
      ensures old(FormInSync(State())) ==> FormInSync(State())
    {
      EmptyDoesNotParse();
      PartsAreParsed(sid);
      NextStaysInSync(State(), ChangeManualParentId(sid));
      hide Parse;
      hide IsId;
      hide PartsOf;
      hide FormInSync;
      if |sid| == 0 {
        parentId, parentIdTrustDomain, parentIdPath, message := sid, "", "", "";
        return;
      }
      match Parse(sid)
      case Some((td, path)) =>
        message, parentId, parentIdTrustDomain, parentIdPath := "", sid, td, path;
        spiffeIdPrefix := PREFIX + td + "/";
      case None =>
        parentId, message, parentIdTrustDomain, parentIdPath := sid, "Invalid Parent ID", "", "";
    }

    /** The lines become comma-separated pieces. */
    method OnChangeSelectors(text: string)
      modifies this
      ensures State() == Next(old(State()), ChangeSelectors(text))
      ensures State() == old(State()).(selectors := Join(Split(text, '\n'), ','))
    {
      PiecesAreFree(text, '\n');
      JoinAfterSplit(text, '\n');
      LinesBecomeCommas(Split(text, '\n'));
      selectors := NewlinesToCommas(text);
    }

    method OnChangeFederatesWith(text: string)
      modifies this
      ensures State() == old(State()).(federatesWith := text)
    {
      federatesWith := text;
    }

    method OnChangeDnsNames(text: string)
      modifies this
      ensures State() == old(State()).(dnsNames := text)
    {
      dnsNames := text;
    }

    method Handle(e: Event)
      modifies this
      ensures State() == Next(old(State()), e)
    {
      hide Parse;
      hide FormInSync;
      hide PartsOf;
      hide IsId;
      match e
      case ChangeSpiffeId(text) => OnChangeSpiffeId(text);
      case ChangeParentId(selected) => OnChangeParentId(selected);
      case ChangeManualParentId(text) => OnChangeManualParentId(text);
      case ChangeSelectors(text) => OnChangeSelectors(text);
      case ChangeFederatesWith(text) => OnChangeFederatesWith(text);
      case ChangeDnsNames(text) => OnChangeDnsNames(text);
    }

    /** A whole session: the submitted IDs print to what is displayed, and the lists are those of the fields. */
    method Session(events: seq<Event>, endpoint: string) returns (r: Result<Submission, Rejection>)
      requires State() == BLANK
      modifies this
      ensures State() == After(events)
      ensures r.Ok? ==>
        && Print(r.value.spiffeId) == spiffeId && Print(r.value.parentId) == parentId
        && Map(FormatSelector, r.value.selectors) == Map(Trim, Split(selectors, ','))
        && r.value.federatesWith == Parts(federatesWith) && r.value.dnsNames == Parts(dnsNames)
    {
      hide Next;
      hide Print;
      hide Parts;
      hide FormInSync;
      for i := 0 to |events|
        invariant State() == After(events[..i])
      {
        assert events[..i + 1][..i] == events[..i];
        Handle(events[i]);
      }
      assert events[..|events|] == events;
      FormStaysInSync(events);
      r := OnSubmit(endpoint);
    }

    /**
      Accepted exactly with two IDs and type:value selectors. Then the selectors are the trimmed pieces, lists typed
      with a comma and a space between the items are those lists, and the IDs print to the texts displayed, as long
      as the form is in sync.
     */
    method OnSubmit(endpoint: string) returns (r: Result<Submission, Rejection>)
      ensures r == Submit(State(), endpoint)
      ensures r.Ok? <==>
        && endpoint != "" && IsId(parentId) && IsId(spiffeId)
        && selectors != "" && forall p | p in Split(selectors, ',') :: IsTypeValue(Trim(p))
      ensures r.Ok? ==> Map(FormatSelector, r.value.selectors) == Map(Trim, Split(selectors, ','))
      ensures r.Ok? ==> r.value.federatesWith == Parts(federatesWith) && r.value.dnsNames == Parts(dnsNames)
      ensures r.Ok? ==>
        && ReadsSpaced(selectors, Map(FormatSelector, r.value.selectors))
        && ReadsSpaced(federatesWith, r.value.federatesWith) && ReadsSpaced(dnsNames, r.value.dnsNames)
      ensures r.Ok? && FormInSync(State()) ==>
        Print(r.value.spiffeId) == spiffeId && Print(r.value.parentId) == parentId
    {
      SubmitMeans(State(), endpoint);
      hide Parse;
      hide Split;
      hide Trim;
      hide FormInSync;
      hide IsTypeValue;
      hide ReadsSpaced;
      if parentId == "" {
        return Err(ParentEmpty);
      }
      if spiffeId == "" {
        return Err(SpiffeIdEmpty);
      }
      if Parse(parentId).None? {
        return Err(ParentInvalid);
      }
      if Parse(spiffeId).None? {
        return Err(SpiffeIdInvalid);
      }
      var selectorStrings := Parts(selectors);
      if |selectorStrings| == 0 {
        return Err(SelectorsEmpty);
      }
      if exists x | x in selectorStrings :: !WellFormedSelector(x) {
        return Err(SelectorsMalformed);
      }
      if endpoint == "" {
        return Err(NoServer);
      }
      return Ok(Submission(
        Of(spiffeIdTrustDomain, spiffeIdPath), Of(parentIdTrustDomain, parentIdPath),
        Map(SelectorOf, selectorStrings), Parts(federatesWith), Parts(dnsNames)));
    }
  }
}
