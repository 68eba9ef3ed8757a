/** The two property writers on the diagram's object tree: every command is
    built from the tree as it is before the first command runs, then the batch
    is executed in order. */
module ModdleWriters {
  import opened Wrappers
  import opened ExtensionProperties

  /** A model object; only business objects have `extensionElements`. */
  class Element {
    const kind: string
    const name: string
    const value: string
    var values: seq<Element>
    var extensionElements: Element?
    var parent: Element?

    /** `bpmnFactory.create`. */
    constructor (kind: string, name: string, value: string)
      ensures this.kind == kind && this.name == name && this.value == value
      ensures values == [] && extensionElements == null && parent == null
    {
      this.kind, this.name, this.value := kind, name, value;
      values, extensionElements, parent := [], null, null;
    }
  }

  // ------------------------------------------------------------ what the tree shows

  ghost predicate ShowsExt(e: Element, x: Ext)
    reads e
  {
    && e.kind == x.kind && |e.values| == |x.entries|
    && forall j :: 0 <= j < |x.entries| ==> (e.values[j].name, e.values[j].value) == x.entries[j]
  }

  ghost predicate ShowsExts(values: seq<Element>, exts: seq<Ext>)
    reads values
  {
    |values| == |exts| && forall i :: 0 <= i < |exts| ==> ShowsExt(values[i], exts[i])
  }

  ghost function Container(bo: Element): set<Element>
    reads bo
  {
    if bo.extensionElements == null then {} else {bo.extensionElements}
  }

  ghost function Children(bo: Element): set<Element>
    reads bo, Container(bo)
  {
    if bo.extensionElements == null then {} else set e | e in bo.extensionElements.values
  }

  /** `bo` carries the extension elements `task`, each once, in a container of its own. */
  ghost predicate ShowsTask(bo: Element, task: Task)
    reads bo, Container(bo), Children(bo)
  {
    && (bo.extensionElements == null <==> task.None?)
    && (bo.extensionElements != null ==>
          var c := bo.extensionElements;
          && c != bo && bo !in c.values && c !in c.values
          && (forall i, j :: 0 <= i < j < |c.values| ==> c.values[i] != c.values[j])
          && ShowsExts(c.values, task.value))
  }

  // ------------------------------------------------------------ commands

  /** `element.updateModdleProperties`, for the two properties that are written. */
  datatype Command =
    | UpdateExtensionElements(target: Element, container: Element)
    | UpdateValues(target: Element, values: seq<Element>)

  /** The `values` of `e` after the commands: those of the last command for it. */
  ghost function ValuesAfter(commands: seq<Command>, e: Element, before: seq<Element>): seq<Element> {
    if commands == [] then before
    else
      var last := commands[|commands| - 1];
      if last.UpdateValues? && last.target == e then last.values else ValuesAfter(commands[..|commands| - 1], e, before)
  }

  ghost function ContainerAfter(commands: seq<Command>, e: Element, before: Element?): Element? {
    if commands == [] then before
    else
      var last := commands[|commands| - 1];
      if last.UpdateExtensionElements? && last.target == e then last.container
      else ContainerAfter(commands[..|commands| - 1], e, before)
  }

  /** `properties-panel.multi-command-executor`. */
  method Execute(commands: seq<Command>)
    modifies set c | c in commands :: c.target
    ensures forall e: Element :: old(allocated(e)) ==> e.values == ValuesAfter(commands, e, old(e.values))
    ensures forall e: Element :: old(allocated(e)) ==> e.extensionElements == ContainerAfter(commands, e, old(e.extensionElements)) && e.parent == old(e.parent)
  {
    for i := 0 to |commands|
      invariant forall e: Element :: old(allocated(e)) ==> e.values == ValuesAfter(commands[..i], e, old(e.values))
      invariant forall e: Element :: old(allocated(e)) ==> e.extensionElements == ContainerAfter(commands[..i], e, old(e.extensionElements)) && e.parent == old(e.parent)
    {
      assert commands[..i + 1][..i] == commands[..i] && commands[..i + 1][i] == commands[i];
      match commands[i]
      case UpdateExtensionElements(target, container) => target.extensionElements := container;
      case UpdateValues(target, values) => target.values := values;
    }
    assert commands[..|commands|] == commands;
  }

  // ------------------------------------------------------------ getters

  /** `findExtensionElement(bo, "camunda:Properties")`. */
  method FindProperties(bo: Element, ghost task: Task) returns (properties: Element?)
    requires ShowsTask(bo, task)
    ensures match FirstProperties(Exts(task))
            case None => properties == null
            case Some(i) => bo.extensionElements != null && properties == bo.extensionElements.values[i]
  {
    if bo.extensionElements == null {
      return null;
    }
    var values := bo.extensionElements.values;
    for i := 0 to |values|
      invariant forall k :: 0 <= k < i ==> Exts(task)[k].kind != PROPERTIES
    {
      assert ShowsExt(values[i], Exts(task)[i]);
      if values[i].kind == PROPERTIES {
        FirstIs(Exts(task), i);
        return values[i];
      }
    }
    properties := null;
  }

  /** `findProperty(...)?.value`. */
  method FindProperty(properties: Element?, name: string, ghost entries: seq<Entry>) returns (r: Option<string>)
    requires properties != null ==> ShowsExt(properties, Ext(PROPERTIES, entries))
    requires properties == null ==> entries == []
    ensures r == FindEntry(entries, name)
  {
    if properties == null {
      return None;
    }
    var values := properties.values;
    for j := 0 to |values|
      invariant FindEntry(entries, name) == FindEntry(entries[j..], name)
    {
      assert entries[j..][0] == entries[j] && entries[j..][1..] == entries[j + 1..];
      if values[j].name == name {
        return Some(values[j].value);
      }
    }
    r := None;
  }

  method GetPropertyValue(bo: Element, name: string, ghost task: Task) returns (r: Option<string>)
    requires ShowsTask(bo, task)
    ensures r == Lookup(task, name) && ShowsTask(bo, task)
  {
    var properties := FindProperties(bo, task);
    r := FindProperty(properties, name, PropertyEntries(task));
  }

  // ------------------------------------------------------------ writers

  /** One `camunda:Property` object per entry. */
  method CreateProperties(entries: seq<Entry>, parent: Element) returns (values: seq<Element>)
    ensures |values| == |entries| && fresh(set e | e in values)
    ensures forall j :: 0 <= j < |entries| ==> (values[j].name, values[j].value) == entries[j] && values[j].parent == parent
  {
    values := [];
    for j := 0 to |entries|
      invariant |values| == j && fresh(set e | e in values)
      invariant forall k :: 0 <= k < j ==> (values[k].name, values[k].value) == entries[k] && values[k].parent == parent
    {
      var property := new Element("camunda:Property", entries[j].0, entries[j].1);
      property.parent := parent;
      values := values + [property];
    }
  }

  /** The objects a write may change: the task's business object, its container and its first property list. */
  ghost function WriteSet(bo: Element, task: Task): set<Element>
    reads bo, Container(bo)
  {
    {bo} + Container(bo) +
    match FirstProperties(Exts(task))
    case None => {}
    case Some(i) => if bo.extensionElements != null && i < |bo.extensionElements.values| then {bo.extensionElements.values[i]} else {}
  }

  /** The batch of one write: the container and the list only where they are missing, then the entries. */
  ghost function Batch(bo: Element, container: Element, newContainer: bool, listed: seq<Element>, newList: bool,
                       properties: Element, nextValues: seq<Element>): seq<Command>
  {
    (if newContainer then [UpdateExtensionElements(bo, container)] else [])
    + (if newList then [UpdateValues(container, listed)] else [])
    + [UpdateValues(properties, nextValues)]
  }

  lemma AfterOneMore(commands: seq<Command>, c: Command, e: Element, values: seq<Element>, inner: Element?)
    ensures ValuesAfter(commands + [c], e, values) ==
            if c.UpdateValues? && c.target == e then c.values else ValuesAfter(commands, e, values)
    ensures ContainerAfter(commands + [c], e, inner) ==
            if c.UpdateExtensionElements? && c.target == e then c.container else ContainerAfter(commands, e, inner)
  {
    assert (commands + [c])[..|commands|] == commands;
  }

  /** What the batch leaves behind in one object. */
  lemma BatchEffect(bo: Element, container: Element, newContainer: bool, listed: seq<Element>, newList: bool,
                    properties: Element, nextValues: seq<Element>, e: Element, values: seq<Element>, inner: Element?)
    ensures var commands := Batch(bo, container, newContainer, listed, newList, properties, nextValues);
            && ContainerAfter(commands, e, inner) == (if newContainer && e == bo then container else inner)
            && ValuesAfter(commands, e, values) ==
               (if e == properties then nextValues else if newList && e == container then listed else values)
  {
    var a: seq<Command> := if newContainer then [] + [UpdateExtensionElements(bo, container)] else [];
    var b: seq<Command> := if newList then a + [UpdateValues(container, listed)] else a;
    AfterOneMore([], UpdateExtensionElements(bo, container), e, values, inner);
    AfterOneMore(a, UpdateValues(container, listed), e, values, inner);
    AfterOneMore(b, UpdateValues(properties, nextValues), e, values, inner);
    assert Batch(bo, container, newContainer, listed, newList, properties, nextValues) == b + [UpdateValues(properties, nextValues)];
  }

  /** The first half of both setters: creates what is missing and collects the commands, changing
      nothing that is in the diagram yet. */
  method PrepareWrite(bo: Element, entries: seq<Entry>, ghost task: Task)
    returns (commands: seq<Command>, container: Element, properties: Element, ghost listed: seq<Element>, ghost nextValues: seq<Element>)
    requires ShowsTask(bo, task)
    ensures ShowsTask(bo, task)
    ensures commands == Batch(bo, container, bo.extensionElements == null, listed, FirstProperties(Exts(task)).None?, properties, nextValues)
    ensures if bo.extensionElements == null then fresh(container) && container.kind == "bpmn:ExtensionElements" && container.parent == bo
            else container == bo.extensionElements
    ensures container != bo && container != properties && properties != bo
    ensures match FirstProperties(Exts(task))
            case None => fresh(properties) && properties.kind == PROPERTIES && properties.parent == container
                         && listed == (if bo.extensionElements == null then [] else container.values) + [properties]
            case Some(i) => bo.extensionElements != null && properties == container.values[i] && listed == container.values
    ensures |nextValues| == |entries| && fresh(set e | e in nextValues)
    ensures forall j :: 0 <= j < |entries| ==> (nextValues[j].name, nextValues[j].value) == entries[j]
  {
    commands := [];
    if bo.extensionElements == null {
      container := new Element("bpmn:ExtensionElements", "", "");
      container.parent := bo;
      commands := commands + [UpdateExtensionElements(bo, container)];
    } else {
      container := bo.extensionElements;
    }
    listed := container.values;
    var found := FindProperties(bo, task);
    if found == null {
      properties := new Element(PROPERTIES, "", "");
      properties.parent := container;
      listed := listed + [properties];
      commands := commands + [UpdateValues(container, container.values + [properties])];
    } else {
      properties := found;
    }
    var created := CreateProperties(entries, properties);
    commands := commands + [UpdateValues(properties, created)];
    nextValues := created;
  }

  lemma NewListShows(properties: Element, nextValues: seq<Element>, entries: seq<Entry>)
    requires properties.kind == PROPERTIES && properties.values == nextValues && |nextValues| == |entries|
    requires forall j :: 0 <= j < |entries| ==> (nextValues[j].name, nextValues[j].value) == entries[j]
    ensures ShowsExt(properties, Ext(PROPERTIES, entries))
  {
  }

  /** The container after the batch: the written list in its place, every other element as it was. */
  lemma ListedShows(listed: seq<Element>, properties: Element, task: Task, entries: seq<Entry>, at: nat)
    requires |listed| == |Write(task, entries).value| && at < |listed| && listed[at] == properties
    requires at == (match FirstProperties(Exts(task)) case None => |Exts(task)| case Some(i) => i)
    requires ShowsExt(properties, Ext(PROPERTIES, entries))
    requires forall i :: 0 <= i < |listed| && i != at ==> ShowsExt(listed[i], Exts(task)[i])
    ensures ShowsExts(listed, Write(task, entries).value)
  {
    hide ShowsExt, FirstProperties;
  }

  lemma TaskExts(bo: Element, task: Task)
    requires ShowsTask(bo, task)
    ensures bo.extensionElements != null ==>
              |bo.extensionElements.values| == |Exts(task)|
              && forall i :: 0 <= i < |Exts(task)| ==> ShowsExt(bo.extensionElements.values[i], Exts(task)[i])
  {
  }

  lemma BatchTargets(bo: Element, container: Element, newContainer: bool, listed: seq<Element>, newList: bool,
                     properties: Element, nextValues: seq<Element>)
    ensures forall c :: c in Batch(bo, container, newContainer, listed, newList, properties, nextValues) ==>
                          c.target == properties || (newContainer && c.target == bo) || (newList && c.target == container)
  {
  }

  /** What the commands of the batch leave in every object. */
  lemma BatchEffects(bo: Element, container: Element, newContainer: bool, listed: seq<Element>, newList: bool,
                     properties: Element, nextValues: seq<Element>)
    ensures var commands := Batch(bo, container, newContainer, listed, newList, properties, nextValues);
            && (forall e: Element, inner: Element? ::
                  ContainerAfter(commands, e, inner) == (if newContainer && e == bo then container else inner))
            && (forall e: Element, values: seq<Element> ::
                  ValuesAfter(commands, e, values) ==
                  (if e == properties then nextValues else if newList && e == container then listed else values))
  {
    var commands := Batch(bo, container, newContainer, listed, newList, properties, nextValues);
    forall e: Element, inner: Element?
      ensures ContainerAfter(commands, e, inner) == (if newContainer && e == bo then container else inner)
    {
      BatchEffect(bo, container, newContainer, listed, newList, properties, nextValues, e, [], inner);
    }
    forall e: Element, values: seq<Element>
      ensures ValuesAfter(commands, e, values) ==
              (if e == properties then nextValues else if newList && e == container then listed else values)
    {
      BatchEffect(bo, container, newContainer, listed, newList, properties, nextValues, e, values, null);
    }
  }

  /** The body both setters share, once the retained entries are known: all commands are built
      before the first one runs. */
  method WriteProperties(bo: Element, entries: seq<Entry>, ghost task: Task)
    requires ShowsTask(bo, task)
    modifies WriteSet(bo, task)
    ensures ShowsTask(bo, Write(task, entries))
    ensures old(bo.extensionElements) != null ==> bo.extensionElements == old(bo.extensionElements)
    ensures fresh(Container(bo) + Children(bo) - old(Container(bo) + Children(bo)))
  {
    hide ValuesAfter, ContainerAfter, FirstProperties, ShowsExts, Batch;
    TaskExts(bo, task);
    var commands, container, properties, listed, nextValues := PrepareWrite(bo, entries, task);
    ghost var first := FirstProperties(Exts(task));
    BatchEffects(bo, container, bo.extensionElements == null, listed, first.None?, properties, nextValues);
    BatchTargets(bo, container, bo.extensionElements == null, listed, first.None?, properties, nextValues);
    TaskExts(bo, task);
    label ready:
    Execute(commands);
    assert bo.extensionElements == container && container.values == listed;
    NewListShows(properties, nextValues, entries);
    ghost var at := match first case None => |Exts(task)| case Some(i) => i;
    forall i | 0 <= i < |listed| && i != at ensures ShowsExt(listed[i], Exts(task)[i]) {
      assert old@ready(ShowsExt(listed[i], Exts(task)[i]));
      assert listed[i].values == old@ready(listed[i].values);
    }
    ListedShows(listed, properties, task, entries, at);
  }

  /** `setFederatedStepProperties`. */
  method SetFederatedStepProperties(bo: Element, taskType: Option<string>, installation: Option<string>,
                                    processType: Option<string>, ghost task: Task)
    requires ShowsTask(bo, task)
    modifies WriteSet(bo, task)
    ensures ShowsTask(bo, Write(task, FederatedEntries(taskType, installation, processType)))
    ensures fresh(Container(bo) + Children(bo) - old(Container(bo) + Children(bo)))
  {
    var values := [("taskType", taskType), ("targetInstallationId", installation), ("targetProcessType", processType)];
    var entries: seq<Entry> := [];
    for i := 0 to |values|
      invariant i == 0 ==> entries == []
      invariant i == 1 ==> entries == Keep("taskType", taskType, false)
      invariant i == 2 ==> entries == Keep("taskType", taskType, false) + Keep("targetInstallationId", installation, false)
      invariant i == 3 ==> entries == FederatedEntries(taskType, installation, processType)
    {
      if values[i].1.Some? && values[i].1.value != "" {
        entries := entries + [(values[i].0, values[i].1.value)];
      }
    }
    WriteProperties(bo, entries, task);
  }

  /** `setSignatureProperties`. */
  method SetSignatureProperties(bo: Element, taskType: Option<string>, level: Option<string>, ghost task: Task)
    requires ShowsTask(bo, task)
    modifies WriteSet(bo, task)
    ensures ShowsTask(bo, Write(task, SignatureEntries(taskType, level)))
    ensures fresh(Container(bo) + Children(bo) - old(Container(bo) + Children(bo)))
  {
    var values := [("taskType", taskType), ("requiredLevel", level)];
    var entries: seq<Entry> := [];
    for i := 0 to |values|
      invariant i == 0 ==> entries == []
      invariant i == 1 ==> entries == Keep("taskType", taskType, true)
      invariant i == 2 ==> entries == SignatureEntries(taskType, level)
    {
      if values[i].1.Some? {
        entries := entries + [(values[i].0, values[i].1.value)];
      }
    }
    WriteProperties(bo, entries, task);
  }

  /** The `setValue` of the five fields: getters on the tree, then the panel's setter. */
  method HandleEdit(bo: Element, edit: Edit, ghost task: Task)
    requires ShowsTask(bo, task)
    modifies WriteSet(bo, task)
    ensures ShowsTask(bo, ApplyEdit(task, edit))
    ensures fresh(Container(bo) + Children(bo) - old(Container(bo) + Children(bo)))
  {
    hide ShowsTask, Write, FederatedEntries, SignatureEntries, PropertyEntries;
    var installation := GetPropertyValue(bo, "targetInstallationId", task);
    var processType := GetPropertyValue(bo, "targetProcessType", task);
    var level := GetPropertyValue(bo, "requiredLevel", task);
    match edit
    case CheckFederated(checked) =>
      if checked {
        SetFederatedStepProperties(bo, Some("federated"), Some(Or(installation, "")), Some(Or(processType, "")), task);
      } else {
        SetFederatedStepProperties(bo, None, None, None, task);
      }
    case SelectInstallation(id) =>
      SetFederatedStepProperties(bo, Some("federated"), Some(id), Some(Or(processType, "")), task);
    case TypeProcess(text) =>
      SetFederatedStepProperties(bo, Some("federated"), Some(Or(installation, "")), Some(text), task);
    case CheckSignature(checked) =>
      if checked {
        SetSignatureProperties(bo, Some("signature"), Some(Or(level, "ses")), task);
      } else {
        SetSignatureProperties(bo, None, None, task);
      }
    case SelectLevel(value) =>
      SetSignatureProperties(bo, Some("signature"), Some(value), task);
  }

  lemma WriteSetWithin(bo: Element, task: Task)
    ensures WriteSet(bo, task) <= {bo} + Container(bo) + Children(bo)
  {
  }

  lemma RunStep(task: Task, edits: seq<Edit>)
    ensures edits != [] ==> Run(task, edits) == Run(ApplyEdit(task, edits[0]), edits[1..])
    ensures edits == [] ==> Run(task, edits) == task
  {
  }

  /** Any sequence of edits of both panels, on the tree: it shows what the run shows, and touches
      nothing but the task, its container and the elements in it. */
  method HandleEdits(bo: Element, edits: seq<Edit>, ghost task: Task)
    requires ShowsTask(bo, task)
    modifies {bo} + Container(bo) + Children(bo)
    ensures ShowsTask(bo, Run(task, edits))
  {
    hide ShowsTask, ApplyEdit, Run;
    ghost var now := task;
    for i := 0 to |edits|
      invariant ShowsTask(bo, now) && Run(now, edits[i..]) == Run(task, edits)
      invariant fresh(Container(bo) + Children(bo) - old(Container(bo) + Children(bo)))
    {
      assert edits[i..][0] == edits[i] && edits[i..][1..] == edits[i + 1..];
      RunStep(now, edits[i..]);
      WriteSetWithin(bo, now);
      HandleEdit(bo, edits[i], now);
      now := ApplyEdit(now, edits[i]);
    }
    RunStep(now, edits[|edits|..]);
  }
}
