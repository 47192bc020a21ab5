/** Editing uploaded entries: an entry is loaded into text fields, edited, and applied back to the list. */
module JsonEditor {
  import opened Wrappers
  import opened Sequences
  import opened Text
  import opened Spiffe
  import opened Association

  /** An uploaded entry; anything may be missing from the file. */
  datatype UploadedEntry = UploadedEntry(
    id: Option<string>, spiffeId: Option<SpiffeId>, parentId: Option<SpiffeId>, selectors: Option<seq<Selector>>,
    jwtSvidTtl: Option<int>, x509SvidTtl: Option<int>, expiresAt: Option<int>,
    federatesWith: Option<seq<string>>, dnsNames: Option<seq<string>>,
    admin: Option<bool>, downstream: Option<bool>, revisionNumber: Option<int>, storeSvid: Option<bool>)

  // ----- The text fields

  function SelectorsText(selectors: seq<Selector>): string {
    if selectors == [] then "" else FormatSelector(selectors[0]) + "\n" + SelectorsText(selectors[1..])
  }

  predicate NonEmpty(s: string) {
    s != ""
  }

  /** The trimmed non-empty lines, each read as a selector. */
  function ParsedSelectors(text: string): seq<Selector> {
    Map(SelectorOf, Filter(Map(Trim, Split(text, '\n')), NonEmpty))
  }

  function Lines(selectors: seq<Selector>): seq<string> {
    Map(FormatSelector, selectors)
  }

  lemma {:induction false} SplitSelectorsText(selectors: seq<Selector>)
    requires Free(Lines(selectors), '\n')
    ensures Split(SelectorsText(selectors), '\n') == Lines(selectors) + [""]
  {
    if selectors == [] {
    } else {
      var first, rest := FormatSelector(selectors[0]), selectors[1..];
      assert Lines(selectors) == [first] + Lines(rest);
      assert Free([first] + Lines(rest), '\n');
      FreeCons(first, Lines(rest), '\n');
      hide Split;
      hide Lines;
      hide Free;
      hide FormatSelector;
      SplitSelectorsText(rest);
      SplitAtFree(first, '\n', SelectorsText(rest));
      assert [first] + (Lines(rest) + [""]) == ([first] + Lines(rest)) + [""];
    }
  }

  function TrimmedLine(s: Selector): string {
    Trim(FormatSelector(s))
  }

  lemma TrimmedLineHasColon(s: Selector)
    ensures ':' in TrimmedLine(s)
  {
  }

  lemma KeptLines(selectors: seq<Selector>)
    ensures Filter(Map(Trim, Lines(selectors) + [""]), NonEmpty) == Map(TrimmedLine, selectors)
  {
    var trimmed := Map(TrimmedLine, selectors);
    assert Map(Trim, Lines(selectors) + [""]) == trimmed + [""] by {
      assert Trim("") == "";
      hide Trim;
    }
    hide Trim;
    hide Filter;
    forall l | l in trimmed ensures NonEmpty(l) {
      var i :| 0 <= i < |selectors| && trimmed[i] == l;
      TrimmedLineHasColon(selectors[i]);
    }
    FilterAppend(trimmed, [""], NonEmpty);
    FilterAll(trimmed, NonEmpty);
    FilterOne("", NonEmpty);
    assert trimmed + [] == trimmed;
  }

  lemma ParsedOfNewlineFree(selectors: seq<Selector>)
    requires Free(Lines(selectors), '\n')
    ensures |ParsedSelectors(SelectorsText(selectors))| == |selectors|
    ensures forall i | 0 <= i < |selectors| ::
      ParsedSelectors(SelectorsText(selectors))[i] == SelectorOf(TrimmedLine(selectors[i]))
  {
    hide Filter;
    hide Trim;
    hide SelectorOf;
    SplitSelectorsText(selectors);
    KeptLines(selectors);
    assert ParsedSelectors(SelectorsText(selectors)) == Map(SelectorOf, Map(TrimmedLine, selectors));
  }

  /** A selector comes back from the text as it was: it fits on a line, needs no trimming and has a proper type. */
  predicate Survives(s: Selector) {
    || s == Selector("", "")
    || (s.kind != "" && ':' !in s.kind && '\n' !in FormatSelector(s) && TrimmedLine(s) == FormatSelector(s))
  }

  lemma SurvivesAlone(s: Selector)
    requires '\n' !in FormatSelector(s)
    ensures SelectorOf(TrimmedLine(s)) == s <==> Survives(s)
  {
    var line := TrimmedLine(s);
    ParseAfterFormat(s);
    ParseSelectorSplits(line);
    if s == Selector("", "") {
      assert FormatSelector(s) == ":";
    }
  }

  lemma SelectorOfKeepsOut(x: string, c: char)
    requires c !in x && c != ':'
    ensures c !in FormatSelector(SelectorOf(x))
  {
  }

  lemma ParsedAreNewlineFree(text: string)
    ensures forall s | s in ParsedSelectors(text) :: '\n' !in FormatSelector(s)
  {
    hide Trim;
    hide Split;
    hide SelectorOf;
    var lines := Split(text, '\n');
    var kept := Filter(Map(Trim, lines), NonEmpty);
    PiecesAreFree(text, '\n');
    forall s | s in ParsedSelectors(text) ensures '\n' !in FormatSelector(s) {
      var i :| 0 <= i < |kept| && SelectorOf(kept[i]) == s;
      assert kept[i] in Map(Trim, lines);
      var j :| 0 <= j < |lines| && Map(Trim, lines)[j] == kept[i];
      assert lines[j] in lines && '\n' !in kept[i];
      SelectorOfKeepsOut(kept[i], '\n');
    }
  }

  /** The selectors of an entry come back from the text exactly when each of them survives. */
  lemma SelectorsRoundTrip(selectors: seq<Selector>)
    ensures ParsedSelectors(SelectorsText(selectors)) == selectors <==> forall s | s in selectors :: Survives(s)
  {
    var text := SelectorsText(selectors);
    ParsedAreNewlineFree(text);
    hide ParsedSelectors;
    hide SelectorsText;
    hide SelectorOf;
    hide TrimmedLine;
    if ParsedSelectors(text) == selectors || forall s | s in selectors :: Survives(s) {
      forall l | l in Lines(selectors) ensures '\n' !in l {
        var i :| 0 <= i < |selectors| && Lines(selectors)[i] == l;
        assert selectors[i] in selectors;
      }
      ParsedOfNewlineFree(selectors);
      forall i | 0 <= i < |selectors|
        ensures SelectorOf(TrimmedLine(selectors[i])) == selectors[i] <==> Survives(selectors[i])
      {
        assert Lines(selectors)[i] in Lines(selectors);
        SurvivesAlone(selectors[i]);
      }
      assert forall i | 0 <= i < |selectors| :: selectors[i] in selectors;
    }
  }

  function Padded(lines: seq<string>, before: seq<string>, after: seq<string>): seq<string>
    requires |lines| == |before| == |after|
  {
    seq(|lines|, i requires 0 <= i < |lines| => before[i] + lines[i] + after[i])
  }

  lemma SurvivingLine(s: Selector)
    requires Survives(s)
    ensures var line := FormatSelector(s); line != "" && '\n' !in line && Trim(line) == line && SelectorOf(line) == s
  {
    hide SelectorOf;
    assert ':' in FormatSelector(s);
    if s == Selector("", "") {
      assert FormatSelector(s) == ":";
    }
    SurvivesAlone(s);
  }

  lemma PaddedLine(s: Selector, before: string, after: string)
    requires Survives(s) && forall c | c in before + after :: c in {' ', '\t', '\r'}
    ensures var line := before + FormatSelector(s) + after;
      '\n' !in line && Trim(line) == FormatSelector(s)
    ensures FormatSelector(s) != "" && SelectorOf(FormatSelector(s)) == s
  {
    SurvivingLine(s);
    hide Survives;
    hide Trim;
    hide SelectorOf;
    hide FormatSelector;
    TrimAround(before, FormatSelector(s), after);
    assert forall c | c in before :: c in before + after;
    assert forall c | c in after :: c in before + after;
  }

  /** Selectors on lines of their own, with spaces, tabs or carriage returns around them, are read as they are. */
  lemma PaddedLinesAreRead(selectors: seq<Selector>, before: seq<string>, after: seq<string>)
    requires selectors != [] && |before| == |after| == |selectors|
    requires forall s | s in selectors :: Survives(s)
    requires forall i, c | 0 <= i < |selectors| && c in before[i] + after[i] :: c in {' ', '\t', '\r'}
    ensures ParsedSelectors(Join(Padded(Lines(selectors), before, after), '\n')) == selectors
  {
    var lines, padded := Lines(selectors), Padded(Lines(selectors), before, after);
    hide Split;
    hide Join;
    hide SelectorOf;
    hide FormatSelector;
    hide Trim;
    forall i | 0 <= i < |selectors|
      ensures '\n' !in padded[i] && Trim(padded[i]) == lines[i]
      ensures lines[i] != "" && SelectorOf(lines[i]) == selectors[i]
    {
      assert selectors[i] in selectors;
      PaddedLine(selectors[i], before[i], after[i]);
    }
    SplitInvertsJoin(padded, '\n');
    assert Map(Trim, padded) == lines;
    FilterAll(lines, NonEmpty);
  }

  // ----- The component

  datatype Editor = Editor(
    uploadedEntries: seq<UploadedEntry>, newEntriesIds: seq<string>,
    selectedEntryId: Option<nat>, entrySelected: bool,
    spiffeIdTrustDomain: Option<string>, spiffeIdPath: Option<string>, spiffeId: string,
    parentIdTrustDomain: Option<string>, parentIdPath: Option<string>, parentId: string,
    selectorsList: string, federatesWith: string, dnsNames: string,
    x509SvidTtl: Option<int>, jwtSvidTtl: Option<int>, expiresAt: Option<int>,
    adminFlag: Option<bool>, downstream: Option<bool>)

  /** The text shown for an ID whose parts may be missing. */
  function IdText(id: Option<SpiffeId>): string {
    match id
    case None => ""
    case Some(SpiffeId(Some(td), Some(path))) => PREFIX + td + path
    case Some(SpiffeId(Some(td), None)) => PREFIX + td
    case Some(SpiffeId(None, Some(path))) => path
    case Some(SpiffeId(None, None)) => ""
  }

  /** A valid ID is shown as it prints. */
  lemma ValidIdIsShown(id: SpiffeId)
    requires CheckSpiffeIdValidity(id.trustDomain, id.path)
    ensures IdText(Some(id)) == Print(id)
  {
  }

  function TrustDomainOf(id: Option<SpiffeId>): Option<string> {
    if id.None? then Some("") else id.value.trustDomain
  }

  function PathOf(id: Option<SpiffeId>): Option<string> {
    if id.None? then Some("") else id.value.path
  }

  function OrEmpty<T>(xs: Option<seq<T>>): seq<T> {
    if xs.Some? then xs.value else []
  }

  /** The fields as an entry fills them in. */
  function Loaded(ed: Editor, id: nat, e: UploadedEntry): Editor {
    ed.(selectedEntryId := Some(id), entrySelected := true,
        spiffeIdTrustDomain := TrustDomainOf(e.spiffeId), spiffeIdPath := PathOf(e.spiffeId),
        spiffeId := IdText(e.spiffeId),
        parentIdTrustDomain := TrustDomainOf(e.parentId), parentIdPath := PathOf(e.parentId),
        parentId := IdText(e.parentId),
        selectorsList := SelectorsText(OrEmpty(e.selectors)),
        federatesWith := Join(OrEmpty(e.federatesWith), ','), dnsNames := Join(OrEmpty(e.dnsNames), ','),
        x509SvidTtl := e.x509SvidTtl, jwtSvidTtl := e.jwtSvidTtl, expiresAt := e.expiresAt,
        adminFlag := e.admin, downstream := e.downstream)
  }

  predicate Given(x: Option<string>) {
    x.Some? && x.value != ""
  }

  /** applyEditToEntry gets past its alerts. */
  predicate CanApply(ed: Editor) {
    && ed.selectedEntryId.Some?
    && Given(ed.spiffeIdTrustDomain) && Given(ed.spiffeIdPath)
    && Given(ed.parentIdTrustDomain) && Given(ed.parentIdPath)
    && ed.selectorsList != ""
  }

  /** The entry with the fields written into it; an undefined field, or empty DNS names, leave the old value. */
  function Edited(ed: Editor, e: UploadedEntry): UploadedEntry {
    e.(spiffeId := Some(SpiffeId(ed.spiffeIdTrustDomain, ed.spiffeIdPath)),
       parentId := Some(SpiffeId(ed.parentIdTrustDomain, ed.parentIdPath)),
       selectors := Some(ParsedSelectors(ed.selectorsList)),
       jwtSvidTtl := if ed.jwtSvidTtl.Some? then ed.jwtSvidTtl else e.jwtSvidTtl,
       x509SvidTtl := if ed.x509SvidTtl.Some? then ed.x509SvidTtl else e.x509SvidTtl,
       expiresAt := if ed.expiresAt.Some? then ed.expiresAt else e.expiresAt,
       federatesWith := Some(Parts(ed.federatesWith)),
       dnsNames := if ed.dnsNames != "" then Some(Parts(ed.dnsNames)) else e.dnsNames,
       admin := if ed.adminFlag.Some? then ed.adminFlag else e.admin,
       downstream := if ed.downstream.Some? then ed.downstream else e.downstream)
  }

  lemma NoText()
    ensures SelectorsText([]) == "" && Join([], ',') == ""
  {
  }

  /** The parts of an ID and the text it is shown as, as far as they are defined. */
  method ShowId(id: Option<SpiffeId>) returns (trustDomain: Option<string>, path: Option<string>, text: string)
    ensures trustDomain == TrustDomainOf(id) && path == PathOf(id) && text == IdText(id)
  {
    trustDomain, path, text := Some(""), Some(""), "";
    if id.Some? {
      trustDomain, path := id.value.trustDomain, id.value.path;
      if trustDomain.Some? && path.Some? {
        text := PREFIX + trustDomain.value + path.value;
      } else if trustDomain.Some? {
        text := PREFIX + trustDomain.value;
      } else if path.Some? {
        text := path.value;
      }
    }
  }

  /** The field-by-field update of the entry object. */
  method EditEntry(ed: Editor, entry: UploadedEntry) returns (e: UploadedEntry)
    ensures e == Edited(ed, entry)
  {
    e := entry.(
      spiffeId := Some(SpiffeId(ed.spiffeIdTrustDomain, ed.spiffeIdPath)),
      parentId := Some(SpiffeId(ed.parentIdTrustDomain, ed.parentIdPath)),
      selectors := Some(ParsedSelectors(ed.selectorsList)));
    if ed.jwtSvidTtl.Some? {
      e := e.(jwtSvidTtl := ed.jwtSvidTtl);
    }
    if ed.x509SvidTtl.Some? {
      e := e.(x509SvidTtl := ed.x509SvidTtl);
    }
    if ed.expiresAt.Some? {
      e := e.(expiresAt := ed.expiresAt);
    }
    e := e.(federatesWith := Some(Parts(ed.federatesWith)));
    if |ed.dnsNames| != 0 {
      e := e.(dnsNames := Some(Parts(ed.dnsNames)));
    }
    if ed.adminFlag.Some? {
      e := e.(admin := ed.adminFlag);
    }
    if ed.downstream.Some? {
      e := e.(downstream := ed.downstream);
    }
  }

  function DisplayId(e: UploadedEntry): string
    requires e.spiffeId.Some?
  {
    var id := Print(e.spiffeId.value);
    if id == "" && e.spiffeId.value.path.Some? then e.spiffeId.value.path.value else id
  }

  /** A valid ID is listed as it prints, any other under its path. */
  lemma DisplayIdIs(e: UploadedEntry)
    requires e.spiffeId.Some?
    ensures var id := e.spiffeId.value;
      DisplayId(e) == if CheckSpiffeIdValidity(id.trustDomain, id.path) then Print(id)
                      else if id.path.Some? then id.path.value else ""
  {
  }

  /** The entry has what the editor insists on. */
  predicate HasMandatoryFields(e: UploadedEntry) {
    && e.spiffeId.Some? && Given(e.spiffeId.value.trustDomain) && Given(e.spiffeId.value.path)
    && e.parentId.Some? && Given(e.parentId.value.trustDomain) && Given(e.parentId.value.path)
    && e.selectors.Some? && e.selectors.value != []
  }

  /** Nothing of the entry is lost or changed on the way through the text fields. */
  predicate KeptByEditor(e: UploadedEntry) {
    && (forall s | s in OrEmpty(e.selectors) :: Survives(s))
    && e.federatesWith.Some? && e.federatesWith.value != [""] && PlainNames(e.federatesWith.value)
    && (e.dnsNames.None? || e.dnsNames.value == [""] || PlainNames(e.dnsNames.value))
  }

  lemma LoadedCanApply(ed: Editor, id: nat, e: UploadedEntry)
    ensures CanApply(Loaded(ed, id, e)) <==> HasMandatoryFields(e)
    ensures var l := Loaded(ed, id, e);
      l.uploadedEntries == ed.uploadedEntries && l.selectedEntryId == Some(id)
  {
  }

  /** An unedited entry with the mandatory fields is written back unchanged exactly when it is KeptByEditor. */
  lemma EditedIsSame(ed: Editor, id: nat, e: UploadedEntry)
    requires HasMandatoryFields(e)
    ensures Edited(Loaded(ed, id, e), e) == e <==> KeptByEditor(e)
  {
    hide Survives;
    hide ParsedSelectors;
    hide Parts;
    SelectorsRoundTrip(e.selectors.value);
    PartsOfJoin(OrEmpty(e.federatesWith));
    PartsOfJoin(OrEmpty(e.dnsNames));
    JoinEmpty(OrEmpty(e.dnsNames), ',');
  }

  /** What the user can change in one field. */
  datatype FieldEdit =
    | EditSpiffeIdTrustDomain(text: string)
    | EditSpiffeIdPath(text: string)
    | EditParentIdTrustDomain(text: string)
    | EditParentIdPath(text: string)
    | EditSelectors(selectors: seq<Selector>)
    | EditFederatesWith(names: seq<string>)
    | EditDnsNames(names: seq<string>)
    | EditX509Ttl(n: int)
    | EditJwtTtl(n: int)
    | EditExpiresAt(n: int)
    | EditAdmin(b: bool)
    | EditDownstream(b: bool)

  /** The field after the edit, as typed. */
  function Typed(ed: Editor, f: FieldEdit): Editor {
    match f
    case EditSpiffeIdTrustDomain(text) => ed.(spiffeIdTrustDomain := Some(text))
    case EditSpiffeIdPath(text) => ed.(spiffeIdPath := Some(text))
    case EditParentIdTrustDomain(text) => ed.(parentIdTrustDomain := Some(text))
    case EditParentIdPath(text) => ed.(parentIdPath := Some(text))
    case EditSelectors(ss) => ed.(selectorsList := SelectorsText(ss))
    case EditFederatesWith(names) => ed.(federatesWith := Join(names, ','))
    case EditDnsNames(names) => ed.(dnsNames := Join(names, ','))
    case EditX509Ttl(n) => ed.(x509SvidTtl := Some(n))
    case EditJwtTtl(n) => ed.(jwtSvidTtl := Some(n))
    case EditExpiresAt(n) => ed.(expiresAt := Some(n))
    case EditAdmin(b) => ed.(adminFlag := Some(b))
    case EditDownstream(b) => ed.(downstream := Some(b))
  }

  /** The entry the user means. */
  function Meant(e: UploadedEntry, f: FieldEdit): UploadedEntry {
    match f
    case EditSpiffeIdTrustDomain(text) => e.(spiffeId := Some(SpiffeId(Some(text), PathOf(e.spiffeId))))
    case EditSpiffeIdPath(text) => e.(spiffeId := Some(SpiffeId(TrustDomainOf(e.spiffeId), Some(text))))
    case EditParentIdTrustDomain(text) => e.(parentId := Some(SpiffeId(Some(text), PathOf(e.parentId))))
    case EditParentIdPath(text) => e.(parentId := Some(SpiffeId(TrustDomainOf(e.parentId), Some(text))))
    case EditSelectors(ss) => e.(selectors := Some(ss))
    case EditFederatesWith(names) => e.(federatesWith := Some(names))
    case EditDnsNames(names) => e.(dnsNames := Some(names))
    case EditX509Ttl(n) => e.(x509SvidTtl := Some(n))
    case EditJwtTtl(n) => e.(jwtSvidTtl := Some(n))
    case EditExpiresAt(n) => e.(expiresAt := Some(n))
    case EditAdmin(b) => e.(admin := Some(b))
    case EditDownstream(b) => e.(downstream := Some(b))
  }

  /** The field, its text and back, is what the user means: DNS names cannot be emptied. */
  predicate Lands(e: UploadedEntry, f: FieldEdit) {
    && HasMandatoryFields(Meant(e, f)) && KeptByEditor(Meant(e, f))
    && (f.EditDnsNames? && f.names in {[], [""]} ==> e.dnsNames == Some(f.names))
  }

  /** The edited fields are those of the entry meant, so the alerts ask for its mandatory fields. */
  lemma EditCanApply(ed: Editor, id: nat, e: UploadedEntry, f: FieldEdit)
    ensures CanApply(Typed(Loaded(ed, id, e), f)) <==> HasMandatoryFields(Meant(e, f))
  {
  }

  lemma FieldsLand(ed: Editor, id: nat, e: UploadedEntry, f: FieldEdit)
    requires HasMandatoryFields(Meant(e, f))
    ensures Edited(Typed(Loaded(ed, id, e), f), e) == Meant(e, f) <==> Lands(e, f)
  {
    var m := Meant(e, f);
    NoText();
    hide Survives;
    hide ParsedSelectors;
    hide SelectorsText;
    hide Parts;
    hide Join;
    hide Trim;
    SelectorsRoundTrip(m.selectors.value);
    PartsOfJoin(OrEmpty(m.federatesWith));
    PartsOfJoin(OrEmpty(m.dnsNames));
    JoinEmpty(OrEmpty(m.dnsNames), ',');
  }

  /**
    Any edit of one field of a loaded entry can be applied and changes that field of the entry as meant, and nothing
    else, exactly when the entry meant has the mandatory fields and fits the text fields, and it is not the DNS names
    that are emptied.
   */
  lemma EditLandsInItsField(ed: Editor, id: nat, e: UploadedEntry, f: FieldEdit)
    ensures var typed := Typed(Loaded(ed, id, e), f);
      CanApply(typed) && Edited(typed, e) == Meant(e, f) <==> Lands(e, f)
  {
    var typed := Typed(Loaded(ed, id, e), f);
    EditCanApply(ed, id, e, f);
    if HasMandatoryFields(Meant(e, f)) {
      FieldsLand(ed, id, e, f);
    }
  }

  /** The component: React keeps its fields in one state object, which setState replaces. */
  class CreateEntryJson {
    var state: Editor

    /** One display id per uploaded entry, and a selection that exists. */
    ghost predicate Valid()
      reads this
    {
      && |state.newEntriesIds| == |state.uploadedEntries|
      && (state.selectedEntryId.Some? ==> state.selectedEntryId.value < |state.uploadedEntries|)
    }

    /** Uploading a file: the ids shown are the SPIFFE IDs, or the paths of entries without a valid one. */
    constructor (entries: seq<UploadedEntry>)
      requires forall e | e in entries :: e.spiffeId.Some?
      ensures Valid() && state.uploadedEntries == entries && state.selectedEntryId.None? && !state.entrySelected
      ensures state.spiffeId == state.parentId == state.selectorsList == state.federatesWith == state.dnsNames == ""
      ensures forall i | 0 <= i < |entries| :: state.newEntriesIds[i] == DisplayId(entries[i])
    {
      var ids: seq<string> := [];
      for i := 0 to |entries|
        invariant |ids| == i && forall k | 0 <= k < i :: ids[k] == DisplayId(entries[k])
      {
        var id := Print(entries[i].spiffeId.value);
        if id == "" {
          id := if entries[i].spiffeId.value.path.Some? then entries[i].spiffeId.value.path.value else "";
        }
        ids := ids + [id];
      }
      state := Editor(entries, ids, None, false, Some(""), Some(""), "", Some(""), Some(""), "",
        "", "", "", Some(0), Some(0), Some(0), Some(false), Some(false));
    }

    /**
      Loads an entry, unless one is being edited and the user chooses to stay with it. Applying the loaded fields
      at once is possible exactly with the mandatory fields, and then changes nothing exactly if KeptByEditor.
     */
    method SetSelectedEntriesIds(id: nat, stay: bool)
      requires Valid() && id < |state.uploadedEntries|
      modifies this
      ensures Valid()
      ensures state.uploadedEntries == old(state).uploadedEntries && state.newEntriesIds == old(state).newEntriesIds
      ensures !(old(state).entrySelected && stay) ==>
        var e := state.uploadedEntries[id];
        && state.selectedEntryId == Some(id)
        && (CanApply(state) <==> HasMandatoryFields(e))
        && (CanApply(state) ==> (Edited(state, e) == e <==> KeptByEditor(e)))
      ensures state ==
        if old(state).entrySelected && stay then old(state)
        else Loaded(old(state), id, old(state).uploadedEntries[id])
    {
      hide SelectorsText;
      hide Join;
      hide Edited;
      hide KeptByEditor;
      hide HasMandatoryFields;
      hide CanApply;
      NoText();
      if state.entrySelected {
        if stay {
          return;
        }
      }
      var e := state.uploadedEntries[id];
      LoadedCanApply(state, id, e);
      if HasMandatoryFields(e) {
        EditedIsSame(state, id, e);
      }
      var selectorsWithNewline, federates, names := "", "", "";
      var spiffeTd, spiffePath, spiffeText := ShowId(e.spiffeId);
      var parentTd, parentPath, parentText := ShowId(e.parentId);
      if e.selectors.Some? && |e.selectors.value| != 0 {
        selectorsWithNewline := SelectorsText(e.selectors.value);
      }
      if e.federatesWith.Some? {
        federates := Join(e.federatesWith.value, ',');
      }
      if e.dnsNames.Some? {
        names := Join(e.dnsNames.value, ',');
      }
      state := state.(
        selectedEntryId := Some(id), entrySelected := true,
        spiffeIdTrustDomain := spiffeTd, spiffeIdPath := spiffePath, spiffeId := spiffeText,
        parentIdTrustDomain := parentTd, parentIdPath := parentPath, parentId := parentText,
        selectorsList := selectorsWithNewline, federatesWith := federates, dnsNames := names,
        x509SvidTtl := e.x509SvidTtl, jwtSvidTtl := e.jwtSvidTtl, expiresAt := e.expiresAt,
        adminFlag := e.admin, downstream := e.downstream);
    }

    /**
      Writes the fields into the selected entry, and only there, and clears them; false means an alert and no change.
      Names typed with a comma and a space between them are those names.
     */
    method ApplyEditToEntry() returns (ok: bool)
      requires Valid()
      modifies this
      ensures Valid() && ok == CanApply(old(state))
      ensures ok <==>
        && old(state).selectedEntryId.Some? && old(state).selectorsList != ""
        && old(state).spiffeIdTrustDomain !in {None, Some("")} && old(state).spiffeIdPath !in {None, Some("")}
        && old(state).parentIdTrustDomain !in {None, Some("")} && old(state).parentIdPath !in {None, Some("")}
      ensures !ok ==> state == old(state)
      ensures ok ==>
        var ed, id := old(state), old(state).selectedEntryId.value;
        && state.uploadedEntries == ed.uploadedEntries[id := Edited(ed, ed.uploadedEntries[id])]
        && state.newEntriesIds == ed.newEntriesIds[id := Print(SpiffeId(ed.spiffeIdTrustDomain, ed.spiffeIdPath))]
        && state.selectedEntryId.None? && !state.entrySelected
        && state.spiffeId == state.parentId == state.selectorsList == state.federatesWith == state.dnsNames == ""
        && state.x509SvidTtl == state.jwtSvidTtl == state.expiresAt == Some(0)
        && state.adminFlag == state.downstream == Some(false)
      ensures ok ==>
        var ed := old(state); var e := state.uploadedEntries[ed.selectedEntryId.value];
        && ReadsSpaced(ed.federatesWith, e.federatesWith.value)
        && (ed.dnsNames != "" ==> e.dnsNames.Some? && ReadsSpaced(ed.dnsNames, e.dnsNames.value))
    {
      PartsReadSpaced(state.federatesWith);
      PartsReadSpaced(state.dnsNames);
      hide ReadsSpaced;
      hide ParsedSelectors;
      hide Parts;
      hide Print;
      if state.selectedEntryId.None? {
        return false;
      }
      if state.spiffeIdTrustDomain.None? || state.spiffeIdTrustDomain.value == "" {
        return false;
      }
      if state.spiffeIdPath.None? || state.spiffeIdPath.value == "" {
        return false;
      }
      if state.parentIdTrustDomain.None? || state.parentIdTrustDomain.value == "" {
        return false;
      }
      if state.parentIdPath.None? || state.parentIdPath.value == "" {
        return false;
      }
      if |state.selectorsList| == 0 {
        return false;
      }
      var id := state.selectedEntryId.value;
      var e := EditEntry(state, state.uploadedEntries[id]);
      state := state.(
        uploadedEntries := state.uploadedEntries[id := e],
        newEntriesIds := state.newEntriesIds[id := Print(e.spiffeId.value)],
        selectedEntryId := None, entrySelected := false,
        parentId := "", spiffeId := "", selectorsList := "", federatesWith := "", dnsNames := "",
        x509SvidTtl := Some(0), jwtSvidTtl := Some(0), expiresAt := Some(0),
        adminFlag := Some(false), downstream := Some(false));
      return true;
    }

    /** Loading an entry and applying at once leaves the upload as it was exactly when the entry is KeptByEditor. */
    method LoadThenApply(id: nat) returns (ok: bool)
      requires Valid() && id < |state.uploadedEntries|
      modifies this
      ensures ok == HasMandatoryFields(old(state).uploadedEntries[id])
      ensures ok ==>
        (state.uploadedEntries == old(state).uploadedEntries <==> KeptByEditor(old(state).uploadedEntries[id]))
      ensures !ok ==> state.uploadedEntries == old(state).uploadedEntries
      ensures |state.uploadedEntries| == |old(state).uploadedEntries|
      ensures forall j | 0 <= j < |state.uploadedEntries| && j != id ::
        state.uploadedEntries[j] == old(state).uploadedEntries[j]
    {
      hide Edited;
      hide Loaded;
      hide KeptByEditor;
      hide HasMandatoryFields;
      ghost var ed, e := state, state.uploadedEntries[id];
      SetSelectedEntriesIds(id, false);
      LoadedCanApply(ed, id, e);
      ok := ApplyEditToEntry();
      if ok {
        EditedIsSame(ed, id, e);
        assert state.uploadedEntries[id] == Edited(Loaded(ed, id, e), e);
        assert ed.uploadedEntries[id := e] == ed.uploadedEntries;
      }
    }

    /** Loading an entry, editing one field and applying makes the upload what is meant exactly if the edit lands. */
    method EditThenApply(id: nat, f: FieldEdit) returns (ok: bool)
      requires Valid() && id < |state.uploadedEntries|
      modifies this
      ensures ok == HasMandatoryFields(Meant(old(state).uploadedEntries[id], f))
      ensures !ok ==> state.uploadedEntries == old(state).uploadedEntries
      ensures var e := old(state).uploadedEntries[id];
        ok && state.uploadedEntries == old(state).uploadedEntries[id := Meant(e, f)] <==> Lands(e, f)
      ensures |state.uploadedEntries| == |old(state).uploadedEntries|
      ensures forall j | 0 <= j < |state.uploadedEntries| && j != id ::
        state.uploadedEntries[j] == old(state).uploadedEntries[j]
    {
      hide Edited;
      hide Loaded;
      hide KeptByEditor;
      hide HasMandatoryFields;
      hide Meant;
      hide CanApply;
      ghost var ed, e := state, state.uploadedEntries[id];
      SetSelectedEntriesIds(id, false);
      LoadedCanApply(ed, id, e);
      EditLandsInItsField(ed, id, e, f);
      EditCanApply(ed, id, e, f);
      state := Typed(state, f);
      ok := ApplyEditToEntry();
      if ok {
        assert state.uploadedEntries[id] == Edited(Typed(Loaded(ed, id, e), f), e);
        assert ed.uploadedEntries[id := Meant(e, f)][id] == Meant(e, f);
      }
    }
  }

  /** Clearing the DNS names of an entry and applying leaves the whole entry as it was. */
  lemma ClearedDnsNamesStay(ed: Editor, id: nat, e: UploadedEntry)
    requires HasMandatoryFields(e) && KeptByEditor(e)
    ensures var typed := Typed(Loaded(ed, id, e), EditDnsNames([])); CanApply(typed) && Edited(typed, e) == e
  {
    hide ParsedSelectors;
    hide SelectorsText;
    hide Parts;
    hide Survives;
    hide Join;
    NoText();
    EditedIsSame(ed, id, e);
    EditCanApply(ed, id, e, EditDnsNames([]));
    hide KeptByEditor;
    hide CanApply;
  }
}
