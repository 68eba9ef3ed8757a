/** The object-type editor: attribute drafts and their stored form, loading a
    type into the form and the payload the form sends, and the layout generated
    when a type is created. */
module ObjectTypeForm {
  import opened Wrappers
  import opened Text
  import opened Numbers
  import opened CommaList
  import Layout

  datatype Kind = StringKind | DecimalKind | IntegerKind | BooleanKind | DateKind | ReferenceKind
  datatype Target = Document | Folder

  /** One attribute in the form: numbers are still text. */
  datatype Draft = Draft(name: string, caption: string, kind: Kind, required: bool, pattern: string,
                         min: string, max: string, personalData: bool, target: Option<Target>)

  /** One attribute as the service stores it; absent keys are `None`. */
  datatype Attribute = Attribute(name: string, kind: Kind, required: Option<bool>, personalData: Option<bool>,
                                 pattern: Option<string>, min: Option<Number>, max: Option<Number>, target: Option<Target>)

  predicate Numeric(kind: Kind) { kind.DecimalKind? || kind.IntegerKind? }

  function ToBackend(d: Draft): Attribute {
    Attribute(
      Trim(d.name), d.kind, Some(d.required),
      if d.personalData then Some(true) else None,
      if d.kind.StringKind? && Trim(d.pattern) != "" then Some(Trim(d.pattern)) else None,
      if Numeric(d.kind) && Trim(d.min) != "" then Some(NumberOf(d.min)) else None,
      if Numeric(d.kind) && Trim(d.max) != "" then Some(NumberOf(d.max)) else None,
      if d.kind.ReferenceKind? then d.target else None)
  }

  /** `toBackendAttribute`, which fills the object key by key. */
  method ToBackendAttribute(draft: Draft) returns (attribute: Attribute)
    ensures attribute == ToBackend(draft)
  {
    attribute := Attribute(Trim(draft.name), draft.kind, Some(draft.required), None, None, None, None, None);
    if draft.personalData {
      attribute := attribute.(personalData := Some(true));
    }
    if draft.kind.StringKind? && Trim(draft.pattern) != "" {
      attribute := attribute.(pattern := Some(Trim(draft.pattern)));
    }
    if Numeric(draft.kind) && Trim(draft.min) != "" {
      attribute := attribute.(min := Some(NumberOf(draft.min)));
    }
    if Numeric(draft.kind) && Trim(draft.max) != "" {
      attribute := attribute.(max := Some(NumberOf(draft.max)));
    }
    if draft.kind.ReferenceKind? && draft.target.Some? {
      attribute := attribute.(target := draft.target);
    }
  }

  function NumberText(x: Option<Number>): string { if x.Some? then StringOf(x.value) else "" }

  /** The mapping of `startEdit`. */
  function ToDraft(a: Attribute): Draft {
    Draft(a.name, "", a.kind, Or(a.required, false), Or(a.pattern, ""), NumberText(a.min), NumberText(a.max),
          Or(a.personalData, false), a.target)
  }

  lemma NumberTextIs(x: Option<Number>)
    ensures (if Trim(NumberText(x)) != "" then Some(NumberOf(NumberText(x))) else None) == x
  {
    if x.Some? {
      NumberOfStringOf(x.value);
    }
  }

  /** Loading and saving an attribute is a projection: what was saved once is saved again unchanged. */
  lemma DraftProjection(d: Draft)
    ensures ToBackend(ToDraft(ToBackend(d))) == ToBackend(d)
  {
    TrimIs(d.name);
    TrimIs(d.pattern);
    NumberTextIs(ToBackend(d).min);
    NumberTextIs(ToBackend(d).max);
  }

  /** The attributes the form can show completely. */
  predicate NormalAttribute(a: Attribute) {
    && Trimmed(a.name) && a.required.Some? && a.personalData != Some(false)
    && (a.pattern.Some? ==> a.kind.StringKind? && a.pattern.value != "" && Trimmed(a.pattern.value))
    && (a.min.Some? || a.max.Some? ==> Numeric(a.kind))
    && (a.target.Some? ==> a.kind.ReferenceKind?)
  }

  /** Opening an attribute and saving it leaves it as it was exactly when the form can show all of it. */
  lemma AttributeUnchangedIff(a: Attribute)
    ensures ToBackend(ToDraft(a)) == a <==> NormalAttribute(a)
  {
    TrimIs(a.name);
    TrimIs(Or(a.pattern, ""));
    NumberTextIs(a.min);
    NumberTextIs(a.max);
  }

  // ------------------------------------------------------------ whole object types

  datatype Level = Ses | Aes | Qes
  datatype TriState = Default | True | False

  /** Naming constraints and conditions are JSON the form never looks into: the type parameter. */
  datatype ObjectType<J> = ObjectType(
    forDocuments: bool, attributes: seq<Attribute>, namingConstraints: Option<J>, conditions: seq<J>,
    parents: Option<seq<string>>, icon: Option<string>, format: Option<string>, display: Option<bool>,
    signature: Option<Level>, retentionDays: Option<Number>, reasonRequired: Option<bool>,
    archiveDays: Option<Number>, archiveEncryption: bool, classification: Option<string>)

  datatype Form = Form(
    forDocuments: bool, drafts: seq<Draft>, icon: string, parents: seq<string>, format: string, display: TriState,
    signature: Option<Level>, retentionDays: string, reasonRequired: TriState,
    archiveDays: string, archiveEncryption: bool, classification: string)

  function ToTriState(x: Option<bool>): TriState {
    if x.None? then Default else if x.value then True else False
  }

  function FromTriState(x: TriState): Option<bool> { if x.Default? then None else Some(x.True?) }

  function Drafts(attributes: seq<Attribute>): seq<Draft> {
    if attributes == [] then [] else [ToDraft(attributes[0])] + Drafts(attributes[1..])
  }

  function BackendAttributes(drafts: seq<Draft>): seq<Attribute> {
    if drafts == [] then [] else [ToBackend(drafts[0])] + BackendAttributes(drafts[1..])
  }

  /** `startEdit`. */
  function StartEdit<J>(ot: ObjectType<J>): Form {
    Form(ot.forDocuments, Drafts(ot.attributes), Or(ot.icon, ""), Dedup(Or(ot.parents, [])), Or(ot.format, ""),
         ToTriState(ot.display), ot.signature, NumberText(ot.retentionDays), ToTriState(ot.reasonRequired),
         NumberText(ot.archiveDays), ot.archiveEncryption, Or(ot.classification, ""))
  }

  function NonBlank(s: string): Option<string> { if Trim(s) != "" then Some(Trim(s)) else None }

  function NumberInput(s: string): Option<Number> { if Trim(s) == "" then None else Some(NumberOf(s)) }

  function OnlyFor<T>(applies: bool, x: Option<T>): Option<T> { if applies then x else None }

  /** What the service holds once `handleSubmit` has saved the form over `current`; `None` when an
      attribute name is blank and nothing is sent. */
  function Submit<J>(form: Form, current: ObjectType<J>): Option<ObjectType<J>> {
    if exists d :: d in form.drafts && Trim(d.name) == "" then None
    else Some(ObjectType(
      current.forDocuments, BackendAttributes(form.drafts), current.namingConstraints, current.conditions,
      if form.parents == [] then None else Some(form.parents),
      OnlyFor(!form.forDocuments, if form.icon == "" then None else Some(form.icon)),
      OnlyFor(form.forDocuments, NonBlank(form.format)),
      OnlyFor(form.forDocuments, FromTriState(form.display)),
      OnlyFor(form.forDocuments, form.signature),
      NumberInput(form.retentionDays), FromTriState(form.reasonRequired), NumberInput(form.archiveDays),
      form.archiveEncryption,
      OnlyFor(form.forDocuments, if form.classification == "" then None else Some(form.classification))))
  }

  lemma {:induction false} DraftsProjection(drafts: seq<Draft>)
    ensures BackendAttributes(Drafts(BackendAttributes(drafts))) == BackendAttributes(drafts)
    ensures (forall d :: d in drafts ==> Trim(d.name) != "") ==>
              forall d :: d in Drafts(BackendAttributes(drafts)) ==> Trim(d.name) != ""
  {
    if drafts != [] {
      var d := drafts[0];
      DraftProjection(d);
      TrimIs(d.name);
      DraftsProjection(drafts[1..]);
      assert d in drafts && forall e :: e in drafts[1..] ==> e in drafts;
      assert BackendAttributes(drafts)[1..] == BackendAttributes(drafts[1..]);
      assert Drafts(BackendAttributes(drafts)) == [ToDraft(ToBackend(d))] + Drafts(BackendAttributes(drafts[1..]));
      assert Drafts(BackendAttributes(drafts))[1..] == Drafts(BackendAttributes(drafts[1..]));
    }
  }

  /** Saving a loaded object type and saving it again unchanged sends the same whole payload;
      naming constraints and conditions pass through untouched. */
  lemma SaveTwice<J>(ot: ObjectType<J>)
    requires Submit(StartEdit(ot), ot).Some?
    ensures var saved := Submit(StartEdit(ot), ot).value;
            && Submit(StartEdit(saved), saved) == Some(saved)
            && saved.namingConstraints == ot.namingConstraints && saved.conditions == ot.conditions
  {
    hide Dedup, NonBlank, NumberInput, NumberText, BackendAttributes, Drafts, Trim;
    var form := StartEdit(ot);
    var saved := Submit(form, ot).value;
    DraftsProjection(form.drafts);
    DedupIs(Or(ot.parents, []));
    DedupIs(form.parents);
    NonBlankAgain(form.format);
    NumberTextAgain(saved.retentionDays);
    NumberTextAgain(saved.archiveDays);
  }

  lemma NonBlankAgain(s: string)
    ensures NonBlank(Or(NonBlank(s), "")) == NonBlank(s)
    ensures NonBlank("") == None
  {
    TrimIs(s);
  }

  lemma NumberTextAgain(x: Option<Number>)
    ensures NumberInput(NumberText(x)) == x
  {
    NumberTextIs(x);
  }

  /** The object types the form can show completely: no blank or untrimmed text, no repeated or empty
      parent list, and nothing set that the form offers only for the other sort of type. */
  ghost predicate NormalType<J>(ot: ObjectType<J>) {
    && (forall a :: a in ot.attributes ==> NormalAttribute(a) && a.name != "")
    && (ot.parents.Some? ==> ot.parents.value != [] && AllDistinct(ot.parents.value))
    && (ot.icon.Some? ==> !ot.forDocuments && ot.icon.value != "")
    && (ot.format.Some? ==> ot.forDocuments && ot.format.value != "" && Trimmed(ot.format.value))
    && (ot.display.Some? || ot.signature.Some? ==> ot.forDocuments)
    && (ot.classification.Some? ==> ot.forDocuments && ot.classification.value != "")
  }

  lemma {:induction false} DraftsUnchanged(attributes: seq<Attribute>)
    ensures |Drafts(attributes)| == |attributes| == |BackendAttributes(Drafts(attributes))|
    ensures forall i :: 0 <= i < |attributes| ==> Drafts(attributes)[i] == ToDraft(attributes[i])
    ensures BackendAttributes(Drafts(attributes)) == attributes <==> forall a :: a in attributes ==> NormalAttribute(a)
  {
    hide NormalAttribute, ToBackend, ToDraft;
    if attributes != [] {
      AttributeUnchangedIff(attributes[0]);
      DraftsUnchanged(attributes[1..]);
      assert attributes == [attributes[0]] + attributes[1..];
      var drafts := Drafts(attributes);
      assert drafts[1..] == Drafts(attributes[1..]);
      assert BackendAttributes(drafts) == [ToBackend(drafts[0])] + BackendAttributes(drafts[1..]);
    }
  }

  lemma BlankName(attributes: seq<Attribute>)
    requires forall a :: a in attributes ==> NormalAttribute(a)
    ensures (exists d :: d in Drafts(attributes) && Trim(d.name) == "") <==> exists a :: a in attributes && a.name == ""
  {
    var drafts := Drafts(attributes);
    DraftsUnchanged(attributes);
    forall i | 0 <= i < |attributes| ensures Trim(drafts[i].name) == attributes[i].name {
      assert attributes[i] in attributes;
      TrimIs(attributes[i].name);
    }
    if d :| d in drafts && Trim(d.name) == "" {
      var i :| 0 <= i < |drafts| && drafts[i] == d;
      assert attributes[i] in attributes;
    }
    if a :| a in attributes && a.name == "" {
      var i :| 0 <= i < |attributes| && attributes[i] == a;
      assert drafts[i] in drafts;
    }
  }

  lemma NonBlankIff(x: Option<string>)
    ensures NonBlank(Or(x, "")) == x <==> (x.Some? ==> x.value != "" && Trimmed(x.value))
  {
    TrimIs(Or(x, ""));
  }

  lemma AttributesUnchangedIff(attributes: seq<Attribute>)
    ensures (forall d :: d in Drafts(attributes) ==> Trim(d.name) != "") && BackendAttributes(Drafts(attributes)) == attributes
            <==> forall a :: a in attributes ==> NormalAttribute(a) && a.name != ""
  {
    DraftsUnchanged(attributes);
    if forall a :: a in attributes ==> NormalAttribute(a) {
      BlankName(attributes);
    }
  }

  /** Opening an object type and saving it changes nothing exactly when the form can show all of it. */
  lemma TypeUnchangedIff<J>(ot: ObjectType<J>)
    ensures Submit(StartEdit(ot), ot) == Some(ot) <==> NormalType(ot)
  {
    hide Trim, Trimmed, Dedup, NumberInput, NumberText, NonBlank, BackendAttributes, Drafts, NormalAttribute;
    AttributesUnchangedIff(ot.attributes);
    DedupIs(Or(ot.parents, []));
    NonBlankIff(ot.format);
    NumberTextAgain(ot.retentionDays);
    NumberTextAgain(ot.archiveDays);
  }

  // ------------------------------------------------------------ edited forms

  /** An empty number field, or a number as it is printed. */
  predicate PrintedNumber(s: string) { s == "" || StringOf(NumberOf(s)) == s }

  /** A draft that shows itself again: trimmed texts, printed numbers, no label, and nothing of another type. */
  predicate NormalDraft(d: Draft) {
    && Trimmed(d.name) && d.caption == ""
    && Trimmed(d.pattern) && (d.pattern != "" ==> d.kind.StringKind?)
    && PrintedNumber(d.min) && PrintedNumber(d.max) && (d.min != "" || d.max != "" ==> Numeric(d.kind))
    && (d.target.Some? ==> d.kind.ReferenceKind?)
  }

  /** The forms that show themselves again, field by field. */
  ghost predicate NormalForm(form: Form) {
    && (forall d :: d in form.drafts ==> NormalDraft(d))
    && AllDistinct(form.parents)
    && (form.icon != "" ==> !form.forDocuments)
    && Trimmed(form.format) && (form.format != "" ==> form.forDocuments)
    && (!form.display.Default? || form.signature.Some? || form.classification != "" ==> form.forDocuments)
    && PrintedNumber(form.retentionDays) && PrintedNumber(form.archiveDays)
  }

  lemma NumberAgainIff(s: string)
    ensures NumberText(NumberInput(s)) == s <==> PrintedNumber(s)
  {
    TrimIs(s);
    NumberOfStringOf(NumberOf(s));
  }

  lemma BlankText()
    ensures Trim("") == "" && Trimmed("")
  {
  }

  lemma PatternAgainIff(d: Draft)
    ensures Or(if d.kind.StringKind? && Trim(d.pattern) != "" then Some(Trim(d.pattern)) else None, "") == d.pattern
            <==> Trimmed(d.pattern) && (d.pattern != "" ==> d.kind.StringKind?)
  {
    TrimIs(d.pattern);
    BlankText();
  }

  lemma BoundAgainIff(applies: bool, s: string)
    ensures NumberText(if applies && Trim(s) != "" then Some(NumberOf(s)) else None) == s
            <==> PrintedNumber(s) && (s != "" ==> applies)
  {
    NumberAgainIff(s);
  }

  lemma DraftAgainIff(d: Draft)
    ensures ToDraft(ToBackend(d)) == d <==> NormalDraft(d)
  {
    TrimIs(d.name);
    PatternAgainIff(d);
    BoundAgainIff(Numeric(d.kind), d.min);
    BoundAgainIff(Numeric(d.kind), d.max);
    hide Trim, Trimmed, NumberText, NumberOf, PrintedNumber;
  }

  lemma {:induction false} DraftsAgainIff(drafts: seq<Draft>)
    ensures Drafts(BackendAttributes(drafts)) == drafts <==> forall d :: d in drafts ==> NormalDraft(d)
  {
    hide NormalDraft, ToBackend, ToDraft;
    if drafts != [] {
      var d, rest := drafts[0], drafts[1..];
      DraftAgainIff(d);
      DraftsAgainIff(rest);
      assert drafts == [d] + rest;
      assert BackendAttributes(drafts)[1..] == BackendAttributes(rest);
      assert Drafts(BackendAttributes(drafts)) == [ToDraft(ToBackend(d))] + Drafts(BackendAttributes(rest));
      assert Drafts(BackendAttributes(drafts))[1..] == Drafts(BackendAttributes(rest));
    }
  }

  /** What is sent depends on the edited type only through its sort, its naming constraints and its conditions. */
  lemma SubmitReads<J>(form: Form, ot: ObjectType<J>, ot': ObjectType<J>)
    requires ot.forDocuments == ot'.forDocuments
    requires ot.namingConstraints == ot'.namingConstraints && ot.conditions == ot'.conditions
    ensures Submit(form, ot) == Submit(form, ot')
    ensures Submit(form, ot).Some? ==>
              var sent := Submit(form, ot).value;
              sent.forDocuments == ot.forDocuments && sent.namingConstraints == ot.namingConstraints && sent.conditions == ot.conditions
  {
    hide Trim, BackendAttributes, NumberInput, NonBlank;
  }

  /** Reopening shows what was typed, for every form that is sent, exactly when the form is normal. */
  lemma ReopenIff<J>(form: Form, ot: ObjectType<J>)
    requires form.forDocuments == ot.forDocuments && Submit(form, ot).Some?
    ensures StartEdit(Submit(form, ot).value) == form <==> NormalForm(form)
  {
    hide Trim, Trimmed, Dedup, NumberInput, NumberText, NonBlank, BackendAttributes, Drafts, NormalDraft, PrintedNumber, AllDistinct;
    DraftsAgainIff(form.drafts);
    DedupIs(form.parents);
    FormatAgainIff(form.format);
    NumberAgainIff(form.retentionDays);
    NumberAgainIff(form.archiveDays);
  }

  lemma FormatAgainIff(s: string)
    ensures Or(NonBlank(s), "") == s <==> Trimmed(s)
    ensures Trimmed("")
  {
    TrimIs(s);
    BlankText();
  }

  /** A number field sends the number it shows, and nothing when it is blank. */
  ghost predicate SendsNumber(s: string, sent: Option<Number>) {
    && (forall x: Number :: s == StringOf(x) ==> sent == Some(x))
    && (Trim(s) == "" ==> sent == None)
  }

  lemma NumberInputSends(s: string)
    ensures SendsNumber(s, NumberInput(s))
  {
    forall x: Number | s == StringOf(x) ensures NumberInput(s) == Some(x) {
      NumberOfStringOf(x);
    }
  }

  /** Every key of a stored attribute holds what was put into the field of that name. */
  lemma AttributeSent(d: Draft)
    ensures var a := ToBackend(d);
            && a.name == Trim(d.name) && a.kind == d.kind && a.required == Some(d.required)
            && (a.personalData == Some(true) <==> d.personalData) && a.personalData != Some(false)
            && a.pattern == (if d.kind == StringKind then NonBlank(d.pattern) else None)
            && (Numeric(d.kind) ==> SendsNumber(d.min, a.min) && SendsNumber(d.max, a.max))
            && (!Numeric(d.kind) ==> a.min == None == a.max)
            && a.target == (if d.kind == ReferenceKind then d.target else None)
  {
    NumberInputSends(d.min);
    NumberInputSends(d.max);
    hide SendsNumber, Trim, NumberOf;
  }

  /** Every key of the payload holds what was put into the field of that name, for the sort of type it is for. */
  lemma FormSent<J>(form: Form, ot: ObjectType<J>)
    requires Submit(form, ot).Some?
    ensures var sent := Submit(form, ot).value;
            && |sent.attributes| == |form.drafts|
            && (forall i :: 0 <= i < |form.drafts| ==> sent.attributes[i] == ToBackend(form.drafts[i]))
            && Or(sent.parents, []) == form.parents && sent.parents != Some([])
            && sent.archiveEncryption == form.archiveEncryption
            && SendsNumber(form.retentionDays, sent.retentionDays) && SendsNumber(form.archiveDays, sent.archiveDays)
            && ToTriState(sent.reasonRequired) == form.reasonRequired
            && (!form.forDocuments ==>
                  && Or(sent.icon, "") == form.icon && sent.icon != Some("")
                  && sent.format == None && sent.display == None && sent.signature == None && sent.classification == None)
            && (form.forDocuments ==>
                  && sent.icon == None && ToTriState(sent.display) == form.display && sent.signature == form.signature
                  && sent.format == NonBlank(form.format)
                  && Or(sent.classification, "") == form.classification && sent.classification != Some(""))
  {
    NumberInputSends(form.retentionDays);
    NumberInputSends(form.archiveDays);
    BackendPlaces(form.drafts);
    hide SendsNumber, Trim, NumberInput, NonBlank, BackendAttributes, ToBackend;
  }

  lemma {:induction false} BackendPlaces(drafts: seq<Draft>)
    ensures |BackendAttributes(drafts)| == |drafts|
    ensures forall i :: 0 <= i < |drafts| ==> BackendAttributes(drafts)[i] == ToBackend(drafts[i])
  {
    hide ToBackend;
    if drafts != [] {
      BackendPlaces(drafts[1..]);
    }
  }

  // ------------------------------------------------------------ generated layout

  const COLUMNS_PER_ROW := 2

  function GeneratedField(d: Draft): Layout.Field {
    Layout.Field(Trim(d.name), if Trim(d.caption) != "" then Trim(d.caption) else Trim(d.name), d.required)
  }

  function GeneratedRow(drafts: seq<Draft>): Layout.Row {
    if drafts == [] then [] else [GeneratedField(drafts[0])] + GeneratedRow(drafts[1..])
  }

  function Generated(drafts: seq<Draft>): Layout.Rows {
    if |drafts| <= COLUMNS_PER_ROW then (if drafts == [] then [] else [GeneratedRow(drafts)])
    else [GeneratedRow(drafts[..COLUMNS_PER_ROW])] + Generated(drafts[COLUMNS_PER_ROW..])
  }

  lemma {:induction false} GeneratedAppend(done: seq<Draft>, chunk: seq<Draft>)
    requires |done| % COLUMNS_PER_ROW == 0 && 0 < |chunk| <= COLUMNS_PER_ROW
    ensures Generated(done + chunk) == Generated(done) + [GeneratedRow(chunk)]
  {
    if done == [] {
      assert done + chunk == chunk;
    } else {
      var rest := done[COLUMNS_PER_ROW..];
      assert (done + chunk)[..COLUMNS_PER_ROW] == done[..COLUMNS_PER_ROW];
      assert (done + chunk)[COLUMNS_PER_ROW..] == rest + chunk;
      GeneratedAppend(rest, chunk);
      if rest == [] {
        assert done[..COLUMNS_PER_ROW] == done && Generated(done) == [GeneratedRow(done)];
      }
    }
  }

  /** `buildGeneratedLayoutRows`. */
  method BuildGeneratedLayoutRows(drafts: seq<Draft>) returns (rows: Layout.Rows)
    ensures rows == Generated(drafts)
  {
    hide Generated, GeneratedRow;
    rows := [];
    GeneratedNothing();
    ghost var done := 0;
    var i := 0;
    while i < |drafts|
      invariant 0 <= done <= |drafts| && done == (if i <= |drafts| then i else |drafts|)
      invariant i < |drafts| ==> i % COLUMNS_PER_ROW == 0
      invariant rows == Generated(drafts[..done])
    {
      var end := if i + COLUMNS_PER_ROW <= |drafts| then i + COLUMNS_PER_ROW else |drafts|;
      var chunk := drafts[i..end];
      GeneratedAppend(drafts[..i], chunk);
      assert drafts[..i] + chunk == drafts[..end];
      rows := rows + [GeneratedRow(chunk)];
      i, done := i + COLUMNS_PER_ROW, end;
    }
    assert drafts[..done] == drafts;
  }

  lemma GeneratedNothing()
    ensures Generated([]) == []
  {
  }

  lemma {:induction false} GeneratedRowPlaces(drafts: seq<Draft>)
    ensures |GeneratedRow(drafts)| == |drafts|
    ensures forall j :: 0 <= j < |drafts| ==> GeneratedRow(drafts)[j] == GeneratedField(drafts[j])
  {
    hide GeneratedField;
    if drafts != [] {
      GeneratedRowPlaces(drafts[1..]);
    }
  }

  /** Two to a row in the order of the drafts; a field has the trimmed name, the trimmed label or else the name. */
  lemma {:induction false} GeneratedPlaces(drafts: seq<Draft>, k: nat)
    requires k < |drafts|
    ensures var rows, d := Generated(drafts), drafts[k];
            && |rows| == (|drafts| + 1) / 2 && k / 2 < |rows|
            && |rows[k / 2]| == (if k / 2 * 2 + 1 < |drafts| then 2 else 1)
            && var field := rows[k / 2][k % 2];
               && field.attribute == Trim(d.name) && field.required == d.required
               && field.caption == (if Trim(d.caption) == "" then Trim(d.name) else Trim(d.caption))
    decreases |drafts|
  {
    hide Trim;
    if |drafts| <= 2 {
      GeneratedRowPlaces(drafts);
    } else {
      var first, rest := drafts[..2], drafts[2..];
      GeneratedRowPlaces(first);
      GeneratedPlaces(rest, if k < 2 then 0 else k - 2);
      assert Generated(drafts) == [GeneratedRow(first)] + Generated(rest);
      assert k < 2 ==> first[k] == drafts[k];
      assert k >= 2 ==> rest[k - 2] == drafts[k] && (k - 2) / 2 == k / 2 - 1 && (k - 2) % 2 == k % 2;
    }
  }

  function NameCount(a: string): Draft -> nat { (d: Draft) => if Trim(d.name) == a then 1 else 0 }

  lemma {:induction false} GeneratedRowUses(drafts: seq<Draft>, a: string)
    ensures Layout.Total(GeneratedRow(drafts), Layout.FieldCount(a)) == Layout.Total(drafts, NameCount(a))
    ensures |GeneratedRow(drafts)| == |drafts|
  {
    if drafts != [] {
      GeneratedRowUses(drafts[1..], a);
    }
  }

  lemma {:induction false} GeneratedUses(drafts: seq<Draft>, a: string)
    ensures Layout.Uses(Generated(drafts), a) == Layout.Total(drafts, NameCount(a))
    ensures [] !in Generated(drafts)
    decreases |drafts|
  {
    if |drafts| <= COLUMNS_PER_ROW {
      GeneratedRowUses(drafts, a);
      if drafts != [] {
        var row := GeneratedRow(drafts);
        assert Generated(drafts) == [row] && [row][1..] == [];
        assert Layout.Uses([row], a) == Layout.RowCount(a)(row) + Layout.Total([], Layout.RowCount(a));
      }
    } else {
      var first, rest := drafts[..COLUMNS_PER_ROW], drafts[COLUMNS_PER_ROW..];
      GeneratedRowUses(first, a);
      GeneratedUses(rest, a);
      assert first + rest == drafts;
      Layout.TotalConcat(first, rest, NameCount(a));
      assert Generated(drafts)[1..] == Generated(rest);
    }
  }

  ghost predicate DistinctNames(drafts: seq<Draft>) {
    forall i, j :: 0 <= i < j < |drafts| ==> Trim(drafts[i].name) != Trim(drafts[j].name)
  }

  lemma {:induction false} Named(drafts: seq<Draft>, a: string)
    ensures Layout.Total(drafts, NameCount(a)) > 0 <==> exists i :: 0 <= i < |drafts| && Trim(drafts[i].name) == a
  {
    if drafts != [] {
      Named(drafts[1..], a);
      assert forall i :: 0 <= i < |drafts| - 1 ==> drafts[1..][i] == drafts[i + 1];
      assert forall i :: 0 < i < |drafts| ==> drafts[i] == drafts[1..][i - 1];
    }
  }

  lemma {:induction false} NamedTwice(drafts: seq<Draft>, a: string)
    ensures Layout.Total(drafts, NameCount(a)) > 1 <==>
            exists i, j :: 0 <= i < j < |drafts| && Trim(drafts[i].name) == a && Trim(drafts[j].name) == a
  {
    if drafts != [] {
      var rest := drafts[1..];
      Named(rest, a);
      NamedTwice(rest, a);
      if i, j :| 0 <= i < j < |drafts| && Trim(drafts[i].name) == a && Trim(drafts[j].name) == a {
        assert drafts[j] == rest[j - 1];
        assert i > 0 ==> drafts[i] == rest[i - 1];
      }
      if i, j :| 0 <= i < j < |rest| && Trim(rest[i].name) == a && Trim(rest[j].name) == a {
        assert drafts[i + 1] == rest[i] && drafts[j + 1] == rest[j];
      }
      if Trim(drafts[0].name) == a {
        if j :| 0 <= j < |rest| && Trim(rest[j].name) == a {
          assert drafts[j + 1] == rest[j];
        }
      }
    }
  }

  /** The generated layout is a duplicate-free start for the layout editor exactly when the trimmed
      names differ: the form itself only rejects blank names. */
  lemma GeneratedIsDuplicateFree(drafts: seq<Draft>)
    ensures Layout.NoDuplicates(Generated(drafts)) <==> DistinctNames(drafts)
    ensures [] !in Generated(drafts)
  {
    GeneratedUses(drafts, "");
    forall a
      ensures Layout.Uses(Generated(drafts), a) > 1 <==>
              exists i, j :: 0 <= i < j < |drafts| && Trim(drafts[i].name) == a && Trim(drafts[j].name) == a
    {
      GeneratedUses(drafts, a);
      NamedTwice(drafts, a);
    }
    if i, j :| 0 <= i < j < |drafts| && Trim(drafts[i].name) == Trim(drafts[j].name) {
      assert Layout.Uses(Generated(drafts), Trim(drafts[i].name)) > 1;
    }
  }
}
