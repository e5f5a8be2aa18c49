/** The expense form (`AddExpenseController`): its attachment items with the
    single-flight download flag, the year list, and the save partition. */
module AddExpense {
  import opened Wrappers
  import opened TaxModel
  import JavaFile
  import JavaStrings
  import SmartCache

  // ---------------------------------------------------------------------
  // Attachment items
  // ---------------------------------------------------------------------

  /** What an item wraps: a local file not yet uploaded, or a stored document.
      (The form keeps this as two nullable fields of which exactly one is set.) */
  datatype Source = LocalFile(path: string) | ServerDoc(doc: Document)

  class AttachmentItem {
    const source: Source
    const documentType: DocumentType
    const name: string
    var downloading: bool

    /** A file the user picked, with the chosen document type. */
    constructor FromLocal(file: string, t: DocumentType)
      ensures source == LocalFile(file) && documentType == t
      ensures name == JavaFile.Name(file) && !downloading
    {
      source := LocalFile(file);
      documentType := t;
      name := JavaFile.Name(file);
      downloading := false;
    }

    /** A document already stored with the expense being edited; its name is
        the same basename the cache files it under. */
    constructor FromDocument(d: Document)
      ensures source == ServerDoc(d) && documentType == d.documentType
      ensures name == SmartCache.Filename(d) && !downloading
    {
      source := ServerDoc(d);
      documentType := d.documentType;
      name := JavaFile.Name(d.relativePath);
      downloading := false;
    }
  }

  // ---------------------------------------------------------------------
  // Opening an item: the download flag as a state machine
  // ---------------------------------------------------------------------

  /** What a double click on an item results in. */
  datatype OpenAction =
    | OpenOnDesktop(file: string)   // a local file is handed to the desktop
    | Ignored                       // a download of this item is already running
    | StartDownload(doc: Document)  // a background download task is started

  /** One double click: the flag afterwards and what was done. */
  function OpenStep(source: Source, downloading: bool): (r: (bool, OpenAction))
    ensures r.1.StartDownload? <==> source.ServerDoc? && !downloading
    ensures r.1.StartDownload? ==> r.1.doc == source.doc && r.0
    ensures r.1.Ignored? <==> source.ServerDoc? && downloading
    ensures source.LocalFile? ==> r == (downloading, OpenOnDesktop(source.path))
    ensures source.ServerDoc? ==> r.0
  {
    match source
    case LocalFile(path) => (downloading, OpenOnDesktop(path))
    case ServerDoc(doc) => if downloading then (true, Ignored) else (true, StartDownload(doc))
  }

  /** What the completion callback shows. */
  datatype Completion = ShowFile(path: string) | ShowDownloadError(error: SmartCache.Error)

  /** The success and failure callbacks: both clear the flag. */
  function FinishStep(r: Result<string, SmartCache.Error>): (c: (bool, Completion))
    ensures !c.0
    ensures r.Ok? <==> c.1.ShowFile?
    ensures r.Ok? ==> c.1 == ShowFile(r.value)
    ensures r.Err? ==> c.1 == ShowDownloadError(r.error)
  {
    (false, if r.Ok? then ShowFile(r.value) else ShowDownloadError(r.error))
  }

  /** `openAttachment(item)`, up to the start of the background task. */
  method OpenAttachment(item: AttachmentItem) returns (a: OpenAction)
    modifies item
    ensures (item.downloading, a) == OpenStep(item.source, old(item.downloading))
  {
    if item.source.LocalFile? {
      return OpenOnDesktop(item.source.path);
    }
    if item.downloading {
      return Ignored;
    }
    item.downloading := true;
    a := StartDownload(item.source.doc);
  }

  /** The task's success or failure callback, with the task's result. */
  method OnDownloadFinished(item: AttachmentItem, r: Result<string, SmartCache.Error>) returns (c: Completion)
    modifies item
    ensures (item.downloading, c) == FinishStep(r)
  {
    item.downloading := false;
    match r {
      case Ok(path) => c := ShowFile(path);
      case Err(e) => c := ShowDownloadError(e);
    }
  }

  /** What can happen to one item: a double click, or the end of the
      download task started for it. */
  datatype Event = DoubleClick | TaskSucceeded(path: string) | TaskFailed(error: SmartCache.Error)

  /** One item over time: its flag, the tasks started and not yet finished,
      and how many tasks were started in all. */
  datatype Session = Session(downloading: bool, inFlight: nat, started: nat)

  /** One event. A completion arrives only for a task that was started, so a
      completion with no task in flight does not occur and changes nothing. */
  function Step(source: Source, s: Session, e: Event): Session {
    match e
    case DoubleClick =>
      var (flag, action) := OpenStep(source, s.downloading);
      if action.StartDownload? then Session(flag, s.inFlight + 1, s.started + 1)
      else Session(flag, s.inFlight, s.started)
    case TaskSucceeded(path) =>
      if s.inFlight == 0 then s else Session(FinishStep(Ok(path)).0, s.inFlight - 1, s.started)
    case TaskFailed(err) =>
      if s.inFlight == 0 then s else Session(FinishStep(Err(err)).0, s.inFlight - 1, s.started)
  }

  function Run(source: Source, s: Session, events: seq<Event>): Session
    decreases |events|
  {
    if events == [] then s else Run(source, Step(source, s, events[0]), events[1..])
  }

  /** At most one download in flight, and the flag says exactly whether there
      is one. */
  ghost predicate SingleFlight(s: Session) {
    s.inFlight <= 1 && (s.downloading <==> s.inFlight == 1)
  }

  /** Whatever the user does, a stored document never has two downloads in
      flight, and the flag is set exactly while one is. */
  lemma {:induction false} SingleFlightHolds(doc: Document, s: Session, events: seq<Event>)
    requires SingleFlight(s)
    ensures SingleFlight(Run(ServerDoc(doc), s, events))
    decreases |events|
  {
    if events != [] {
      SingleFlightHolds(doc, Step(ServerDoc(doc), s, events[0]), events[1..]);
    }
  }

  /** Opening a local file never starts a download nor touches the flag. */
  lemma {:induction false} LocalNeverDownloads(path: string, s: Session, events: seq<Event>)
    requires s.inFlight == 0
    ensures Run(LocalFile(path), s, events) == s
    decreases |events|
  {
    if events != [] {
      assert Step(LocalFile(path), s, events[0]) == s;
      LocalNeverDownloads(path, s, events[1..]);
    }
  }

  /** A double click while a download runs changes nothing; after the task
      fails, the next double click starts a new download. */
  lemma RetryAfterFailure(doc: Document, e: SmartCache.Error, s: Session)
    requires s.downloading && s.inFlight == 1
    ensures Step(ServerDoc(doc), s, DoubleClick) == s
    ensures Run(ServerDoc(doc), s, [TaskFailed(e), DoubleClick]) == Session(true, 1, s.started + 1)
  {
    var evs := [TaskFailed(e), DoubleClick];
    var s1 := Step(ServerDoc(doc), s, TaskFailed(e));
    assert s1 == Session(false, 0, s.started);
    assert evs[1..] == [DoubleClick];
    assert Run(ServerDoc(doc), s1, [DoubleClick]) == Run(ServerDoc(doc), Step(ServerDoc(doc), s1, DoubleClick), []);
  }

  // ---------------------------------------------------------------------
  // The year list
  // ---------------------------------------------------------------------

  /** The years around the current one, from three before to three after. */
  function YearRange(currentYear: int): set<string> {
    {
      JavaStrings.IntToString(currentYear - 3), JavaStrings.IntToString(currentYear - 2),
      JavaStrings.IntToString(currentYear - 1), JavaStrings.IntToString(currentYear),
      JavaStrings.IntToString(currentYear + 1), JavaStrings.IntToString(currentYear + 2),
      JavaStrings.IntToString(currentYear + 3)
    }
  }

  /** The years from three before the current one up to, not including,
      `currentYear + i`. */
  function RangeUpTo(currentYear: int, i: int): set<string>
    decreases i + 3
  {
    if i <= -3 then {} else RangeUpTo(currentYear, i - 1) + {JavaStrings.IntToString(currentYear + i - 1)}
  }

  /** The body of the year-loading task once the database answered: the
      database years plus the range around the current year, each once,
      greatest string first. */
  method CollectYears(dbYears: seq<string>, currentYear: int) returns (years: seq<string>)
    ensures forall y :: y in years <==> y in dbYears || y in YearRange(currentYear)
    ensures JavaStrings.Descending(years)
  {
    var yearSet := set y | y in dbYears;
    for i := -3 to 4
      invariant yearSet == (set y | y in dbYears) + RangeUpTo(currentYear, i)
    {
      yearSet := yearSet + {JavaStrings.IntToString(currentYear + i)};
    }
    assert RangeUpTo(currentYear, 4) == YearRange(currentYear);
    years := JavaStrings.SortDescending(yearSet);
  }

  // ---------------------------------------------------------------------
  // Saving
  // ---------------------------------------------------------------------

  function AttachmentOf(item: AttachmentItem): Attachment
    requires item.source.LocalFile?
  {
    Attachment(item.documentType, item.name, item.source.path)
  }

  /** The new uploads: the local items, in list order. */
  function LocalAttachments(items: seq<AttachmentItem>): seq<Attachment>
    decreases |items|
  {
    if items == [] then []
    else
      var last := items[|items| - 1];
      LocalAttachments(items[..|items| - 1]) + (if last.source.LocalFile? then [AttachmentOf(last)] else [])
  }

  /** The stored documents still in the list, in list order. */
  function ServerDocuments(items: seq<AttachmentItem>): seq<Document>
    decreases |items|
  {
    if items == [] then []
    else
      var last := items[|items| - 1];
      ServerDocuments(items[..|items| - 1]) + (if last.source.ServerDoc? then [last.source.doc] else [])
  }

  /** Every item lands in exactly one of the two lists. */
  lemma {:induction false} PartitionIsExact(items: seq<AttachmentItem>)
    ensures |LocalAttachments(items)| + |ServerDocuments(items)| == |items|
    decreases |items|
  {
    if items != [] {
      PartitionIsExact(items[..|items| - 1]);
    }
  }

  /** The uploads are exactly the attachments of the local items. */
  lemma {:induction false} LocalAttachmentsExactly(items: seq<AttachmentItem>, a: Attachment)
    ensures a in LocalAttachments(items) <==>
      exists i :: 0 <= i < |items| && items[i].source.LocalFile? && a == AttachmentOf(items[i])
    decreases |items|
  {
    if items != [] {
      var init := items[..|items| - 1];
      LocalAttachmentsExactly(init, a);
      var n := |items| - 1;
      var last := if items[n].source.LocalFile? then [AttachmentOf(items[n])] else [];
      assert LocalAttachments(items) == LocalAttachments(init) + last;
      if a in LocalAttachments(init) {
        var i :| 0 <= i < |init| && init[i].source.LocalFile? && a == AttachmentOf(init[i]);
        assert items[i] == init[i];
      }
      if exists i :: 0 <= i < |items| && items[i].source.LocalFile? && a == AttachmentOf(items[i]) {
        var i :| 0 <= i < |items| && items[i].source.LocalFile? && a == AttachmentOf(items[i]);
        if i < n {
          assert init[i] == items[i];
        }
      }
    }
  }

  /** The two loops of `handleSave`: new attachments from the local items and,
      when an expense is being edited, the surviving stored documents. */
  method PartitionItems(items: seq<AttachmentItem>, editing: bool)
    returns (newAttachments: seq<Attachment>, survivingDocs: seq<Document>)
    ensures newAttachments == LocalAttachments(items)
    ensures survivingDocs == if editing then ServerDocuments(items) else []
  {
    newAttachments := [];
    for i := 0 to |items|
      invariant newAttachments == LocalAttachments(items[..i])
    {
      assert items[..i + 1][..i] == items[..i];
      if items[i].source.LocalFile? {
        newAttachments := newAttachments + [AttachmentOf(items[i])];
      }
    }
    assert items[..|items|] == items;
    survivingDocs := [];
    if editing {
      for i := 0 to |items|
        invariant survivingDocs == ServerDocuments(items[..i])
      {
        assert items[..i + 1][..i] == items[..i];
        if items[i].source.ServerDoc? {
          survivingDocs := survivingDocs + [items[i].source.doc];
        }
      }
    }
  }

  /** The expense handed to the service: an edited one keeps its id, state and
      surviving documents; a new one gets its id and state from the library. */
  function BuildExpense(editing: Option<Expense>, year: Option<string>, person: Person, t: ExpenseType,
                        description: string, date: Option<string>, surviving: seq<Document>): (e: Expense)
    ensures editing.Some? ==> e.id == editing.value.id && e.state == editing.value.state && e.documents == surviving
    ensures editing.None? ==> e.id == None && e.state == None && e.documents == []
    ensures e.person == person && e.year == year && e.expenseType == t && e.description == description
    ensures e.rawDate == date.GetOr("")
  {
    var dateStr := if date.Some? then date.value else "";
    if editing.Some? then Expense(editing.value.id, year, person, t, description, dateStr, editing.value.state, surviving)
    else Expense(None, year, person, t, description, dateStr, None, [])
  }

  /** How a click on save ends. */
  datatype SaveOutcome =
    | InitFailed(error: SmartCache.Error)
    | NoPersonSelected
    | Registered(expense: Expense, attachments: seq<Attachment>)

  // ---------------------------------------------------------------------
  // The form
  // ---------------------------------------------------------------------

  class AddExpenseController {
    var editingExpense: Option<Expense>
    var person: Option<Person>
    var year: Option<string>
    var yearItems: seq<string>
    var expenseType: ExpenseType
    var description: string
    /** The picked date, already formatted as dd/MM/yyyy. */
    var date: Option<string>
    var items: seq<AttachmentItem>

    constructor (defaultType: ExpenseType)
      ensures editingExpense == None && person == None && year == None && yearItems == []
      ensures expenseType == defaultType && description == "" && date == None && items == []
    {
      editingExpense := None;
      person := None;
      year := None;
      yearItems := [];
      expenseType := defaultType;
      description := "";
      date := None;
      items := [];
    }

    /** `loadAvailableYears()` with its success and failure handlers run to
        the end; `cfg`, `db`, `store` and `mkdirOk` are what `init` would find. */
    method LoadAvailableYears(mgr: SmartCache.ServiceManager, cfg: SmartCache.Config, db: SmartCache.MetadataStore,
                              store: SmartCache.RemoteStore, mkdirOk: bool, currentYear: int)
      requires mgr.Valid()
      modifies this, mgr
      ensures mgr.Valid()
      ensures mgr.LazilyInitialised(cfg, db, store, mkdirOk)
      ensures mgr.IsReady() <==> old(mgr.IsReady()) || SmartCache.InitFailure(cfg).None?
      ensures editingExpense == old(editingExpense) && items == old(items) && person == old(person)
      ensures expenseType == old(expenseType) && description == old(description) && date == old(date)
      ensures var ok := old(mgr.IsReady()) || SmartCache.InitResult(cfg, old(mgr.cache), mkdirOk).Ok?;
        var dbYears := if old(mgr.IsReady()) then old(mgr.metadata).value.years else db.years;
        && (ok ==> (forall y :: y in yearItems <==> y in dbYears || y in YearRange(currentYear)))
        && (ok ==> JavaStrings.Descending(yearItems))
        && (ok ==> year == if editingExpense.None? then Some(JavaStrings.IntToString(currentYear)) else old(year))
        && (!ok ==> yearItems == [JavaStrings.IntToString(currentYear)])
        && (!ok ==> year == Some(JavaStrings.IntToString(currentYear)))
    {
      var current := JavaStrings.IntToString(currentYear);
      var i := mgr.EnsureReady(cfg, db, store, mkdirOk);
      if i.Err? {
        yearItems := [current];
        year := Some(current);
        return;
      }
      var metadata := mgr.GetMetadata();
      var years := CollectYears(metadata.value.years, currentYear);
      yearItems := years;
      if editingExpense.None? {
        year := Some(current);
      }
    }

    /** `handleSave()`, up to the hand-over to `registerExpense`. */
    method HandleSave(mgr: SmartCache.ServiceManager, cfg: SmartCache.Config, db: SmartCache.MetadataStore,
                      store: SmartCache.RemoteStore, mkdirOk: bool) returns (o: SaveOutcome)
      requires mgr.Valid()
      modifies mgr
      ensures mgr.Valid()
      ensures mgr.LazilyInitialised(cfg, db, store, mkdirOk)
      ensures mgr.IsReady() <==> old(mgr.IsReady()) || SmartCache.InitFailure(cfg).None?
      ensures !old(mgr.IsReady()) && SmartCache.InitResult(cfg, old(mgr.cache), mkdirOk).Err? ==>
        o == InitFailed(SmartCache.InitResult(cfg, old(mgr.cache), mkdirOk).error)
      ensures (old(mgr.IsReady()) || SmartCache.InitResult(cfg, old(mgr.cache), mkdirOk).Ok?) ==>
        if person.None? then o == NoPersonSelected
        else
          var surviving := if editingExpense.Some? then ServerDocuments(items) else [];
          o == Registered(
            BuildExpense(editingExpense, year, person.value, expenseType, description, date, surviving),
            LocalAttachments(items))
    {
      var i := mgr.EnsureReady(cfg, db, store, mkdirOk);
      if i.Err? {
        return InitFailed(i.error);
      }
      if person.None? {
        return NoPersonSelected;
      }
      var newAttachments, survivingDocs := PartitionItems(items, editingExpense.Some?);
      var expense := BuildExpense(editingExpense, year, person.value, expenseType, description, date, survivingDocs);
      o := Registered(expense, newAttachments);
    }
  }
}
