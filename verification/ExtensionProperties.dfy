/** The extension properties of a manual task: the federated-step writer and the
    signature writer on one shared property list, and what the getters of both
    make of it. Values only; module `ModdleWriters` runs them on the tree. */
module ExtensionProperties {
  import opened Wrappers

  const PROPERTIES := "camunda:Properties"

  type Entry = (string, string)

  /** One extension element: its type, and the name and value of each of its children. */
  datatype Ext = Ext(kind: string, entries: seq<Entry>)

  /** The extension elements of a task, `None` while it has no such container. */
  type Task = Option<seq<Ext>>

  // ------------------------------------------------------------ getters

  /** The index of the first `camunda:Properties`. */
  function FirstProperties(exts: seq<Ext>): (r: Option<nat>)
    ensures r.Some? ==> r.value < |exts| && exts[r.value].kind == PROPERTIES
                        && forall i :: 0 <= i < r.value ==> exts[i].kind != PROPERTIES
    ensures r.None? ==> forall i :: 0 <= i < |exts| ==> exts[i].kind != PROPERTIES
  {
    if exts == [] then None
    else if exts[0].kind == PROPERTIES then Some(0)
    else match FirstProperties(exts[1..]) case None => None case Some(i) => Some(i + 1)
  }

  lemma FirstIs(exts: seq<Ext>, i: nat)
    requires i < |exts| && exts[i].kind == PROPERTIES && forall k :: 0 <= k < i ==> exts[k].kind != PROPERTIES
    ensures FirstProperties(exts) == Some(i)
  {
    match FirstProperties(exts) {
      case Some(j) => assert j == i;
    }
  }

  function Exts(task: Task): seq<Ext> { if task.None? then [] else task.value }

  function PropertyEntries(task: Task): seq<Entry> {
    match FirstProperties(Exts(task)) case None => [] case Some(i) => Exts(task)[i].entries
  }

  function FindEntry(entries: seq<Entry>, name: string): Option<string> {
    if entries == [] then None
    else if entries[0].0 == name then Some(entries[0].1)
    else FindEntry(entries[1..], name)
  }

  function Lookup(task: Task, name: string): Option<string> { FindEntry(PropertyEntries(task), name) }

  /** What the two panels read: `isFederatedStepEnabled` and `isSignatureRequired` look at the
      task type, the other getters have defaults. */
  datatype Reading = Reading(taskType: Option<string>, installation: string, processType: string, level: string)

  function Read(entries: seq<Entry>): Reading {
    Reading(FindEntry(entries, "taskType"), Or(FindEntry(entries, "targetInstallationId"), ""),
            Or(FindEntry(entries, "targetProcessType"), ""), Or(FindEntry(entries, "requiredLevel"), "ses"))
  }

  function ReadTask(task: Task): Reading { Read(PropertyEntries(task)) }

  predicate IsFederated(r: Reading) { r.taskType == Some("federated") }

  predicate IsSignature(r: Reading) { r.taskType == Some("signature") }

  // ------------------------------------------------------------ writers

  function Keep(name: string, value: Option<string>, keepEmpty: bool): seq<Entry> {
    if value.Some? && (keepEmpty || value.value != "") then [(name, value.value)] else []
  }

  /** The entries `setFederatedStepProperties` retains: neither undefined nor empty. */
  function FederatedEntries(taskType: Option<string>, installation: Option<string>, processType: Option<string>): seq<Entry> {
    Keep("taskType", taskType, false) + Keep("targetInstallationId", installation, false)
    + Keep("targetProcessType", processType, false)
  }

  /** The entries `setSignatureProperties` retains: those not undefined. */
  function SignatureEntries(taskType: Option<string>, level: Option<string>): seq<Entry> {
    Keep("taskType", taskType, true) + Keep("requiredLevel", level, true)
  }

  /** Replaces the first property list, creating it and its container where they are missing. */
  function Write(task: Task, entries: seq<Entry>): Task {
    var exts := Exts(task);
    match FirstProperties(exts)
    case None => Some(exts + [Ext(PROPERTIES, entries)])
    case Some(i) => Some(exts[i := Ext(PROPERTIES, entries)])
  }

  /** The edits of the two panels. */
  datatype Edit =
    | CheckFederated(checked: bool)
    | SelectInstallation(id: string)
    | TypeProcess(processType: string)
    | CheckSignature(checked: bool)
    | SelectLevel(level: string)

  function EditEntries(r: Reading, e: Edit): seq<Entry> {
    match e
    case CheckFederated(true) => FederatedEntries(Some("federated"), Some(r.installation), Some(r.processType))
    case CheckFederated(false) => FederatedEntries(None, None, None)
    case SelectInstallation(id) => FederatedEntries(Some("federated"), Some(id), Some(r.processType))
    case TypeProcess(p) => FederatedEntries(Some("federated"), Some(r.installation), Some(p))
    case CheckSignature(true) => SignatureEntries(Some("signature"), Some(r.level))
    case CheckSignature(false) => SignatureEntries(None, None)
    case SelectLevel(level) => SignatureEntries(Some("signature"), Some(level))
  }

  function ApplyEdit(task: Task, e: Edit): Task { Write(task, EditEntries(ReadTask(task), e)) }

  function Run(task: Task, edits: seq<Edit>): Task
    decreases |edits|
  {
    if edits == [] then task else Run(ApplyEdit(task, edits[0]), edits[1..])
  }

  // ------------------------------------------------------------ one write

  /** The first list holds exactly what was written, and writing again replaces it. */
  lemma WriteIs(task: Task, entries: seq<Entry>, entries': seq<Entry>)
    ensures PropertyEntries(Write(task, entries)) == entries
    ensures Write(Write(task, entries), entries') == Write(task, entries')
  {
    var exts, after := Exts(task), Exts(Write(task, entries));
    var i := if FirstProperties(exts).Some? then FirstProperties(exts).value else |exts|;
    assert after[i] == Ext(PROPERTIES, entries);
    assert forall k :: 0 <= k < i ==> after[k] == exts[k];
    FirstIs(after, i);
    var again := Ext(PROPERTIES, entries');
    if FirstProperties(exts).None? {
      assert after[i := again] == exts + [again];
    } else {
      assert after[i := again] == exts[i := again];
    }
  }

  /** Everything but the first property list. */
  function Others(exts: seq<Ext>): seq<Ext> {
    match FirstProperties(exts) case None => exts case Some(i) => exts[..i] + exts[i + 1..]
  }

  function PropertiesCount(exts: seq<Ext>): nat {
    if exts == [] then 0 else (if exts[0].kind == PROPERTIES then 1 else 0) + PropertiesCount(exts[1..])
  }

  lemma {:induction false} CountConcat(a: seq<Ext>, b: seq<Ext>)
    ensures PropertiesCount(a + b) == PropertiesCount(a) + PropertiesCount(b)
  {
    if a == [] {
      assert a + b == b;
    } else {
      assert (a + b)[1..] == a[1..] + b;
      CountConcat(a[1..], b);
    }
  }

  lemma {:induction false} NoneCounted(exts: seq<Ext>)
    ensures PropertiesCount(exts) == 0 <==> FirstProperties(exts).None?
  {
    if exts != [] {
      NoneCounted(exts[1..]);
    }
  }

  lemma CountAround(exts: seq<Ext>, i: nat, x: Ext)
    requires i < |exts| && exts[i].kind == PROPERTIES && x.kind == PROPERTIES
    ensures PropertiesCount(exts[i := x]) == PropertiesCount(exts)
  {
    CountOne(x);
    CountOne(exts[i]);
    hide PropertiesCount;
    var a, b := exts[..i], exts[i + 1..];
    assert exts == a + [exts[i]] + b && exts[i := x] == a + [x] + b;
    CountConcat(a + [exts[i]], b);
    CountConcat(a + [x], b);
    CountConcat(a, [exts[i]]);
    CountConcat(a, [x]);
  }

  /** The other elements keep value and order, and a second property list is never made. */
  lemma WriteFrame(task: Task, entries: seq<Entry>)
    ensures var before, after := Exts(task), Exts(Write(task, entries));
            && Others(after) == Others(before)
            && PropertiesCount(after) == if PropertiesCount(before) == 0 then 1 else PropertiesCount(before)
  {
    var before, written := Exts(task), Ext(PROPERTIES, entries);
    var after := Exts(Write(task, entries));
    NoneCounted(before);
    hide PropertiesCount;
    match FirstProperties(before)
    case None =>
      CountConcat(before, [written]);
      CountOne(written);
      FirstIs(after, |before|);
      assert after[..|before|] + after[|before| + 1..] == before;
    case Some(i) =>
      CountAround(before, i, written);
      FirstIs(after, i);
      assert after[..i] == before[..i] && after[i + 1..] == before[i + 1..];
  }

  lemma CountOne(x: Ext)
    requires x.kind == PROPERTIES
    ensures PropertiesCount([x]) == 1
  {
    assert [x][1..] == [];
  }

  // ------------------------------------------------------------ one meaning

  /** What an edit does to what the panels read. */
  function Step(r: Reading, e: Edit): Reading {
    match e
    case CheckFederated(true) => Reading(Some("federated"), r.installation, r.processType, "ses")
    case SelectInstallation(id) => Reading(Some("federated"), id, r.processType, "ses")
    case TypeProcess(p) => Reading(Some("federated"), r.installation, p, "ses")
    case CheckSignature(true) => Reading(Some("signature"), "", "", r.level)
    case SelectLevel(level) => Reading(Some("signature"), "", "", level)
    case _ => Reading(None, "", "", "ses")
  }

  function Steps(r: Reading, edits: seq<Edit>): Reading
    decreases |edits|
  {
    if edits == [] then r else Steps(Step(r, edits[0]), edits[1..])
  }

  lemma FindKept(name: string, value: Option<string>, keepEmpty: bool, rest: seq<Entry>, wanted: string)
    ensures FindEntry(Keep(name, value, keepEmpty) + rest, wanted) ==
            if wanted == name && value.Some? && (keepEmpty || value.value != "") then value else FindEntry(rest, wanted)
  {
    var kept := Keep(name, value, keepEmpty);
    if kept == [] {
      assert kept + rest == rest;
    } else {
      assert (kept + rest)[1..] == rest;
    }
  }

  lemma NothingFound(wanted: string)
    ensures FindEntry([], wanted) == None
  {
  }

  /** What one of three written names reads as; names are compared here, not spelled out. */
  lemma FindAmong(a: string, va: Option<string>, b: string, vb: Option<string>, c: string, vc: Option<string>,
                  keepEmpty: bool, wanted: string)
    ensures FindEntry(Keep(a, va, keepEmpty) + Keep(b, vb, keepEmpty) + Keep(c, vc, keepEmpty), wanted) ==
            if wanted == a && va.Some? && (keepEmpty || va.value != "") then va
            else if wanted == b && vb.Some? && (keepEmpty || vb.value != "") then vb
            else if wanted == c && vc.Some? && (keepEmpty || vc.value != "") then vc
            else None
  {
    FindKept(a, va, keepEmpty, Keep(b, vb, keepEmpty) + (Keep(c, vc, keepEmpty) + []), wanted);
    FindKept(b, vb, keepEmpty, Keep(c, vc, keepEmpty) + [], wanted);
    FindKept(c, vc, keepEmpty, [], wanted);
    NothingFound(wanted);
    hide Keep, FindEntry;
    var x, y, z := Keep(a, va, keepEmpty), Keep(b, vb, keepEmpty), Keep(c, vc, keepEmpty);
    assert x + y + z == x + (y + (z + []));
  }

  lemma NamesDiffer()
    ensures "taskType" != "targetInstallationId" && "taskType" != "targetProcessType" && "taskType" != "requiredLevel"
    ensures "targetInstallationId" != "targetProcessType" && "targetInstallationId" != "requiredLevel"
    ensures "targetProcessType" != "requiredLevel"
  {
    assert "taskType"[2] != "targetInstallationId"[2] && "taskType"[2] != "targetProcessType"[2];
    assert "taskType"[0] != "requiredLevel"[0] && "targetInstallationId"[6] != "targetProcessType"[6];
    assert "targetInstallationId"[0] != "requiredLevel"[0] && "targetProcessType"[0] != "requiredLevel"[0];
  }

  lemma ReadFederated(taskType: Option<string>, installation: Option<string>, processType: Option<string>)
    ensures Read(FederatedEntries(taskType, installation, processType)) ==
            Reading(if taskType == Some("") then None else taskType, Or(installation, ""), Or(processType, ""), "ses")
  {
    hide Keep, FindEntry;
    NamesDiffer();
    forall wanted: string
      ensures FindEntry(FederatedEntries(taskType, installation, processType), wanted) ==
              if wanted == "taskType" && taskType.Some? && taskType.value != "" then taskType
              else if wanted == "targetInstallationId" && installation.Some? && installation.value != "" then installation
              else if wanted == "targetProcessType" && processType.Some? && processType.value != "" then processType
              else None
    {
      FindAmong("taskType", taskType, "targetInstallationId", installation, "targetProcessType", processType, false, wanted);
    }
  }

  lemma ReadSignature(taskType: Option<string>, level: Option<string>)
    ensures Read(SignatureEntries(taskType, level)) == Reading(taskType, "", "", Or(level, "ses"))
  {
    hide FindEntry;
    NamesDiffer();
    forall wanted: string
      ensures FindEntry(SignatureEntries(taskType, level), wanted) ==
              if wanted == "taskType" && taskType.Some? then taskType
              else if wanted == "requiredLevel" && level.Some? then level else None
    {
      FindAmong("taskType", taskType, "requiredLevel", level, "", None, true, wanted);
      assert SignatureEntries(taskType, level) + [] == SignatureEntries(taskType, level);
    }
  }

  /** Reading after an edit is the meaning of the edit. */
  lemma EditMeaning(task: Task, e: Edit)
    ensures ReadTask(ApplyEdit(task, e)) == Step(ReadTask(task), e)
  {
    var r := ReadTask(task);
    WriteIs(task, EditEntries(r, e), []);
    match e
    case CheckFederated(true) => ReadFederated(Some("federated"), Some(r.installation), Some(r.processType));
    case CheckFederated(false) => ReadFederated(None, None, None);
    case SelectInstallation(id) => ReadFederated(Some("federated"), Some(id), Some(r.processType));
    case TypeProcess(p) => ReadFederated(Some("federated"), Some(r.installation), Some(p));
    case CheckSignature(true) => ReadSignature(Some("signature"), Some(r.level));
    case CheckSignature(false) => ReadSignature(None, None);
    case SelectLevel(level) => ReadSignature(Some("signature"), Some(level));
  }

  /** Two writers, one meaning: over any sequence of edits of both panels, the reading follows the
      edits alone, the other extension elements keep value and order, and no second property list appears. */
  lemma {:induction false} RunMeaning(task: Task, edits: seq<Edit>)
    ensures ReadTask(Run(task, edits)) == Steps(ReadTask(task), edits)
    ensures Others(Exts(Run(task, edits))) == Others(Exts(task))
    ensures var before, after := PropertiesCount(Exts(task)), PropertiesCount(Exts(Run(task, edits)));
            after == if edits != [] && before == 0 then 1 else before
    decreases |edits|
  {
    if edits != [] {
      EditMeaning(task, edits[0]);
      WriteFrame(task, EditEntries(ReadTask(task), edits[0]));
      RunMeaning(ApplyEdit(task, edits[0]), edits[1..]);
    }
  }

  lemma {:induction false} RunAppend(task: Task, edits: seq<Edit>, e: Edit)
    ensures Run(task, edits + [e]) == ApplyEdit(Run(task, edits), e)
    decreases |edits|
  {
    if edits == [] {
      assert edits + [e] == [e];
      assert Run(ApplyEdit(task, e), []) == ApplyEdit(task, e);
    } else {
      assert (edits + [e])[1..] == edits[1..] + [e];
      RunAppend(ApplyEdit(task, edits[0]), edits[1..], e);
    }
  }

  predicate WritesFederated(e: Edit) { e == CheckFederated(true) || e.SelectInstallation? || e.TypeProcess? }

  predicate WritesSignature(e: Edit) { e == CheckSignature(true) || e.SelectLevel? }

  /** After any run the last edit decides alone: the list holds exactly its retained entries, and the
      task is federated, a signature task or neither, never both. */
  lemma {:induction false} LastEditDecides(task: Task, edits: seq<Edit>, e: Edit)
    ensures var before, after := Run(task, edits), Run(task, edits + [e]);
            && PropertyEntries(after) == EditEntries(ReadTask(before), e)
            && (IsFederated(ReadTask(after)) <==> WritesFederated(e))
            && (IsSignature(ReadTask(after)) <==> WritesSignature(e))
  {
    hide EditEntries, Run, FindEntry;
    RunAppend(task, edits, e);
    WriteIs(Run(task, edits), EditEntries(ReadTask(Run(task, edits)), e), []);
    EditMeaning(Run(task, edits), e);
  }

  // ------------------------------------------------------------ the list itself

  /** The order in which the panels write their names. */
  function Place(name: string): nat {
    if name == "taskType" then 0
    else if name == "targetInstallationId" then 1
    else if name == "targetProcessType" then 2
    else 3
  }

  /** A list by what it holds under every name, each name once and in its place. */
  ghost predicate Holds(entries: seq<Entry>, content: string -> Option<string>) {
    && (forall name :: FindEntry(entries, name) == content(name))
    && (forall i, j :: 0 <= i < j < |entries| ==> Place(entries[i].0) < Place(entries[j].0))
  }

  function NonEmpty(value: string): Option<string> { if value == "" then None else Some(value) }

  /** A federated step: its installation and process type where they are not empty, and nothing else. */
  function FederatedContent(installation: string, processType: string): string -> Option<string> {
    name =>
      if name == "taskType" then Some("federated")
      else if name == "targetInstallationId" then NonEmpty(installation)
      else if name == "targetProcessType" then NonEmpty(processType)
      else None
  }

  /** A signature task: its level, and nothing else. */
  function SignatureContent(level: string): string -> Option<string> {
    name =>
      if name == "taskType" then Some("signature") else if name == "requiredLevel" then Some(level) else None
  }

  lemma FederatedHolds(installation: string, processType: string)
    ensures Holds(FederatedEntries(Some("federated"), Some(installation), Some(processType)), FederatedContent(installation, processType))
  {
    var entries := FederatedEntries(Some("federated"), Some(installation), Some(processType));
    NamesDiffer();
    forall name ensures FindEntry(entries, name) == FederatedContent(installation, processType)(name) {
      FindAmong("taskType", Some("federated"), "targetInstallationId", Some(installation), "targetProcessType", Some(processType), false, name);
    }
    hide FindEntry;
  }

  lemma SignatureHolds(level: string)
    ensures Holds(SignatureEntries(Some("signature"), Some(level)), SignatureContent(level))
  {
    var entries := SignatureEntries(Some("signature"), Some(level));
    NamesDiffer();
    forall name ensures FindEntry(entries, name) == SignatureContent(level)(name) {
      FindAmong("taskType", Some("signature"), "requiredLevel", Some(level), "", None, true, name);
      assert entries + [] == entries;
    }
    hide FindEntry;
  }

  /** After any run, what the property list holds by name: nothing after a box was unchecked, otherwise the
      panel's own entries with what was chosen last or read before, each once, and none of the other panel's. */
  lemma {:induction false} ListAfterRun(task: Task, edits: seq<Edit>, e: Edit)
    ensures var before, entries := ReadTask(Run(task, edits)), PropertyEntries(Run(task, edits + [e]));
            match e
            case CheckFederated(false) => entries == []
            case CheckSignature(false) => entries == []
            case CheckFederated(true) => Holds(entries, FederatedContent(before.installation, before.processType))
            case SelectInstallation(id) => Holds(entries, FederatedContent(id, before.processType))
            case TypeProcess(text) => Holds(entries, FederatedContent(before.installation, text))
            case CheckSignature(true) => Holds(entries, SignatureContent(before.level))
            case SelectLevel(level) => Holds(entries, SignatureContent(level))
  {
    hide Run, FindEntry, Holds, FederatedContent, SignatureContent;
    var before := ReadTask(Run(task, edits));
    RunAppend(task, edits, e);
    WriteIs(Run(task, edits), EditEntries(before, e), []);
    match e
    case CheckFederated(true) => FederatedHolds(before.installation, before.processType);
    case SelectInstallation(id) => FederatedHolds(id, before.processType);
    case TypeProcess(text) => FederatedHolds(before.installation, text);
    case CheckSignature(true) => SignatureHolds(before.level);
    case SelectLevel(level) => SignatureHolds(level);
    case _ =>
  }

  // ------------------------------------------------------------ settings over runs

  ghost predicate AllFederated(edits: seq<Edit>) { forall e :: e in edits ==> WritesFederated(e) }

  ghost predicate AllSignature(edits: seq<Edit>) { forall e :: e in edits ==> WritesSignature(e) }

  /** One edit that does not set them: which settings it keeps. */
  lemma StepKeeps(r: Reading, e: Edit)
    ensures !e.SelectInstallation? ==> Step(r, e).installation == if WritesFederated(e) then r.installation else ""
    ensures !e.TypeProcess? ==> Step(r, e).processType == if WritesFederated(e) then r.processType else ""
    ensures !e.SelectLevel? ==> Step(r, e).level == if WritesSignature(e) then r.level else "ses"
  {
  }

  /** What a run of edits that do not set a setting makes of it. */
  lemma {:induction false} StepsKeep(r: Reading, edits: seq<Edit>)
    ensures (forall e :: e in edits ==> !e.SelectInstallation?) ==>
              Steps(r, edits).installation == if AllFederated(edits) then r.installation else ""
    ensures (forall e :: e in edits ==> !e.TypeProcess?) ==>
              Steps(r, edits).processType == if AllFederated(edits) then r.processType else ""
    ensures (forall e :: e in edits ==> !e.SelectLevel?) ==>
              Steps(r, edits).level == if AllSignature(edits) then r.level else "ses"
    decreases |edits|
  {
    hide Step, WritesFederated, WritesSignature;
    if edits != [] {
      var e, rest := edits[0], edits[1..];
      StepKeeps(r, e);
      StepsKeep(Step(r, e), rest);
      assert edits == [e] + rest;
      assert AllFederated(edits) <==> WritesFederated(e) && AllFederated(rest);
      assert AllSignature(edits) <==> WritesSignature(e) && AllSignature(rest);
    }
  }

  /** A setting survives any run of edits that do not set it exactly when it is the default anyway or
      every one of them was made in its own panel: one edit of the other panel, or unchecking the box, forgets it. */
  lemma {:induction false} SettingSurvivesIff(task: Task, edits: seq<Edit>)
    ensures (forall e :: e in edits ==> !e.SelectInstallation?) ==>
              (ReadTask(Run(task, edits)).installation == ReadTask(task).installation <==>
               ReadTask(task).installation == "" || AllFederated(edits))
    ensures (forall e :: e in edits ==> !e.TypeProcess?) ==>
              (ReadTask(Run(task, edits)).processType == ReadTask(task).processType <==>
               ReadTask(task).processType == "" || AllFederated(edits))
    ensures (forall e :: e in edits ==> !e.SelectLevel?) ==>
              (ReadTask(Run(task, edits)).level == ReadTask(task).level <==>
               ReadTask(task).level == "ses" || AllSignature(edits))
  {
    RunMeaning(task, edits);
    StepsKeep(ReadTask(task), edits);
  }

  /** Going to the other panel, or unchecking the box, and coming back shows the defaults, whatever was set before. */
  lemma {:induction false} SwitchingForgets(task: Task, edits: seq<Edit>, away: Edit)
    ensures !WritesFederated(away) ==>
              ReadTask(Run(task, edits + [away] + [CheckFederated(true)])) == Reading(Some("federated"), "", "", "ses")
    ensures !WritesSignature(away) ==>
              ReadTask(Run(task, edits + [away] + [CheckSignature(true)])) == Reading(Some("signature"), "", "", "ses")
  {
    hide Run;
    var left := Run(task, edits + [away]);
    RunAppend(task, edits, away);
    EditMeaning(Run(task, edits), away);
    RunAppend(task, edits + [away], CheckFederated(true));
    EditMeaning(left, CheckFederated(true));
    RunAppend(task, edits + [away], CheckSignature(true));
    EditMeaning(left, CheckSignature(true));
  }
}
