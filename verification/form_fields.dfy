/**
 * The kind mapping of `extractFormFields` (src/lib/pdf-utils.ts): every
 * AcroForm field the PDF library reports becomes a plain record with its
 * name, a kind tag, the value its getter returns and, for choice fields,
 * the list of options. Reading the fields out of the document is the
 * library's work; the model starts from the list of field objects.
 */
module FormFields {
  import opened Wrappers

  /** The field objects of the PDF library, with what their getters return. */
  datatype PdfField =
    | TextBox(name: string, text: Option<string>)          // getText(): string | undefined
    | CheckBox(name: string, checked: bool)                // isChecked()
    | RadioGroup(name: string, chosen: Option<string>, options: seq<string>)
    | Dropdown(name: string, selected: seq<string>, options: seq<string>)
    | OptionList(name: string, selected: seq<string>, options: seq<string>)
    | Signature(name: string)                              // any other field class
    | Button(name: string)

  datatype Kind = Text | Checkbox | Radio | DropdownKind | OptionListKind | Unknown

  /** `string | boolean | string[] | undefined`. */
  datatype Value = Undefined | Str(s: string) | Bool(b: bool) | List(items: seq<string>)

  /** The `FormField` record. */
  datatype FormField = FormField(name: string, kind: Kind, value: Value, options: Option<seq<string>>)

  /** A record whose value has the shape its kind's getter produces. */
  predicate WellTyped(f: FormField) {
    match f.kind
    case Text => (f.value.Str? || f.value.Undefined?) && f.options.None?
    case Checkbox => f.value.Bool? && f.options.None?
    case Radio => (f.value.Str? || f.value.Undefined?) && f.options.Some?
    case DropdownKind => f.value.List? && f.options.Some?
    case OptionListKind => f.value.List? && f.options.Some?
    case Unknown => f.value.Undefined? && f.options.None?
  }

  /** The body of the `fields.map` callback. */
  function ExtractField(field: PdfField): (f: FormField)
    ensures f.name == field.name
    ensures WellTyped(f)
    ensures f.kind == Text <==> field.TextBox?
    ensures f.kind == Checkbox <==> field.CheckBox?
    ensures f.kind == Radio <==> field.RadioGroup?
    ensures f.kind == DropdownKind <==> field.Dropdown?
    ensures f.kind == OptionListKind <==> field.OptionList?
    ensures f.kind == Unknown <==> field.Signature? || field.Button?
    ensures f.options.Some? ==> f.options.value == field.options
    ensures field.TextBox? ==> f.value == if field.text.Some? then Str(field.text.value) else Undefined
    ensures field.CheckBox? ==> f.value == Bool(field.checked)
    ensures field.RadioGroup? ==> f.value == if field.chosen.Some? then Str(field.chosen.value) else Undefined
    ensures field.Dropdown? || field.OptionList? ==> f.value == List(field.selected)
  {
    match field
    case TextBox(name, text) =>
      FormField(name, Text, if text.Some? then Str(text.value) else Undefined, None)
    case CheckBox(name, checked) => FormField(name, Checkbox, Bool(checked), None)
    case RadioGroup(name, chosen, options) =>
      FormField(name, Radio, if chosen.Some? then Str(chosen.value) else Undefined, Some(options))
    case Dropdown(name, selected, options) => FormField(name, DropdownKind, List(selected), Some(options))
    case OptionList(name, selected, options) => FormField(name, OptionListKind, List(selected), Some(options))
    case Signature(name) => FormField(name, Unknown, Undefined, None)
    case Button(name) => FormField(name, Unknown, Undefined, None)
  }

  /** `extractFormFields`: one record per field, in the library's order. */
  function ExtractFormFields(fields: seq<PdfField>): (records: seq<FormField>)
    ensures |records| == |fields|
    ensures forall i :: 0 <= i < |fields| ==> records[i] == ExtractField(fields[i])
    ensures forall i :: 0 <= i < |fields| ==> records[i].name == fields[i].name && WellTyped(records[i])
  {
    seq(|fields|, i requires 0 <= i < |fields| => ExtractField(fields[i]))
  }

  /**
   * The field object a record was read from. Every class but signature and
   * button fields, which both become `Unknown`, can be told back from its
   * record; `None` for a record no field produces.
   */
  function Restore(f: FormField): Option<PdfField> {
    match f.kind
    case Text =>
      if f.value.Str? then Some(TextBox(f.name, Some(f.value.s)))
      else if f.value.Undefined? then Some(TextBox(f.name, None)) else None
    case Checkbox => if f.value.Bool? then Some(CheckBox(f.name, f.value.b)) else None
    case Radio =>
      if f.options.None? then None
      else if f.value.Str? then Some(RadioGroup(f.name, Some(f.value.s), f.options.value))
      else if f.value.Undefined? then Some(RadioGroup(f.name, None, f.options.value)) else None
    case DropdownKind =>
      if f.value.List? && f.options.Some? then Some(Dropdown(f.name, f.value.items, f.options.value)) else None
    case OptionListKind =>
      if f.value.List? && f.options.Some? then Some(OptionList(f.name, f.value.items, f.options.value)) else None
    case Unknown => None
  }

  /** Extraction loses nothing but the class of a signature or button field. */
  lemma ExtractRestores(fields: seq<PdfField>)
    ensures var records := ExtractFormFields(fields);
      forall i :: 0 <= i < |fields| ==>
        (Restore(records[i]) == Some(fields[i]) <==> !fields[i].Signature? && !fields[i].Button?)
  {
    var records := ExtractFormFields(fields);
    forall i | 0 <= i < |fields|
      ensures Restore(records[i]) == Some(fields[i]) <==> !fields[i].Signature? && !fields[i].Button?
    {
      assert records[i] == ExtractField(fields[i]);
    }
  }
}
