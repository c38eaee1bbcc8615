/**
 * `generateHTML` of the PDF-to-form tool (src/app/tools/pdf-to-form/client.tsx):
 * the extracted field records become an HTML form, one `form-group` block per
 * field. Names, values and options are spliced in verbatim, without escaping.
 *
 * The source tests `field.value === opt` to mark the chosen entry of a
 * dropdown, but a dropdown's value is the array its getter returns, so the
 * test never succeeds. The generator takes the test as a parameter:
 * `AsWritten` is the source's strict equality, `Corrected` marks the entries
 * the array contains. Every other kind of field is serialised the same way
 * under both (`OnlyDropdownsDiffer`).
 */
module FormHtml {
  import opened Wrappers
  import opened Strings
  import opened FormFields

  // ---- JavaScript coercions of a field value ----

  /** Truthiness of `string | boolean | string[] | undefined`; every array is truthy. */
  predicate Truthy(v: Value) {
    match v
    case Undefined => false
    case Str(s) => s != ""
    case Bool(b) => b
    case List(_) => true
  }

  /** Template-literal conversion `${v}` of a truthy value. */
  function Display(v: Value): string {
    match v
    case Undefined => "undefined"
    case Str(s) => s
    case Bool(b) => if b then "true" else "false"
    case List(items) => Join(items, ",")
  }

  /** `${field.value || ''}`. */
  function TextValue(v: Value): (r: string)
    ensures !Truthy(v) ==> r == ""
    ensures v.Str? ==> r == v.s
  {
    if Truthy(v) then Display(v) else ""
  }

  /** `field.value === opt`: strict equality holds only between equal strings. */
  predicate StrictEquals(v: Value, opt: string) {
    v.Str? && v.s == opt
  }

  /** Whether `opt` is the chosen entry: equal to a string value, or in an array value. */
  predicate Chosen(v: Value, opt: string) {
    match v
    case Str(s) => s == opt
    case List(items) => opt in items
    case _ => false
  }

  /** An attribute word present only when `on` holds. */
  function Flag(on: bool, word: string): string {
    if on then word else ""
  }

  // ---- the lines `generateHTML` appends ----

  const FormOpen: string := "<form>\n"
  const GroupOpen: string := "  <div class=\"form-group\">\n"
  const GroupClose: string := "  </div>\n"
  const SelectClose: string := "    </select>\n"
  const Submit: string := "  <button type=\"submit\">Submit</button>\n"
  const FormClose: string := "</form>"

  function LabelLine(name: string): string {
    "    <label for=\"" + name + "\">" + name + "</label>\n"
  }

  function TextLine(name: string, value: string): string {
    "    <input type=\"text\" id=\"" + name + "\" name=\"" + name + "\" value=\"" + value + "\" />\n"
  }

  function CheckboxLine(name: string, checked: bool): string {
    "    <input type=\"checkbox\" id=\"" + name + "\" name=\"" + name + "\" " + Flag(checked, "checked") + " />\n"
  }

  function RadioOption(name: string, opt: string, checked: bool): string {
    "    <div>\n"
    + "      <input type=\"radio\" id=\"" + name + "-" + opt + "\" name=\"" + name + "\" value=\"" + opt + "\" "
    + Flag(checked, "checked") + " />\n"
    + "      <label for=\"" + name + "-" + opt + "\">" + opt + "</label>\n"
    + "    </div>\n"
  }

  function SelectOpen(name: string): string {
    "    <select id=\"" + name + "\" name=\"" + name + "\">\n"
  }

  function OptionLine(opt: string, selected: bool): string {
    "      <option value=\"" + opt + "\" " + Flag(selected, "selected") + ">" + opt + "</option>\n"
  }

  /** The radio inputs of `opts`, in order; `checked` where `value === opt`. */
  function RadioOptions(name: string, v: Value, opts: seq<string>): string {
    ConcatMap(opt => RadioOption(name, opt, StrictEquals(v, opt)), opts)
  }

  /** The test that marks a dropdown entry `selected`. */
  datatype SelectionTest =
    | AsWritten   // `field.value === opt`, as the source writes it
    | Corrected   // the entry is one of the selected entries

  predicate Selects(test: SelectionTest, v: Value, opt: string) {
    match test
    case AsWritten => StrictEquals(v, opt)
    case Corrected => Chosen(v, opt)
  }

  /** The `<option>` lines of `opts`, with `selected` where the test holds. */
  function OptionLines(test: SelectionTest, v: Value, opts: seq<string>): string {
    ConcatMap(opt => OptionLine(opt, Selects(test, v, opt)), opts)
  }

  /** What follows the label of a field: its input, its radio group, its select, or nothing. */
  function Control(f: FormField, test: SelectionTest): string {
    if f.kind == Text then TextLine(f.name, TextValue(f.value))
    else if f.kind == Checkbox then CheckboxLine(f.name, Truthy(f.value))
    else if f.kind == Radio && f.options.Some? then RadioOptions(f.name, f.value, f.options.value)
    else if f.kind == DropdownKind && f.options.Some? then
      SelectOpen(f.name) + OptionLines(test, f.value, f.options.value) + SelectClose
    else ""
  }

  function FieldBlock(f: FormField, test: SelectionTest): string {
    GroupOpen + LabelLine(f.name) + Control(f, test) + GroupClose
  }

  /** The blocks of `fields`, in order. */
  function Blocks(fields: seq<FormField>, test: SelectionTest): string {
    ConcatMap(f => FieldBlock(f, test), fields)
  }

  /** The whole document `generateHTML` returns. */
  function Form(fields: seq<FormField>, test: SelectionTest): string {
    FormOpen + Blocks(fields, test) + Submit + FormClose
  }

  // ---- the generator ----

  /** The body of the `fields.forEach` callback: one field's block is appended to `html`. */
  method AppendField(html: string, field: FormField, test: SelectionTest) returns (out: string)
    ensures out == html + FieldBlock(field, test)
  {
    out := html + GroupOpen;
    out := out + LabelLine(field.name);
    Assoc(html, GroupOpen, LabelLine(field.name));
    ghost var head := out;
    if field.kind == Text {
      out := out + TextLine(field.name, TextValue(field.value));
    } else if field.kind == Checkbox {
      out := out + CheckboxLine(field.name, Truthy(field.value));
    } else if field.kind == Radio && field.options.Some? {
      var opts := field.options.value;
      for j := 0 to |opts|
        invariant out == head + RadioOptions(field.name, field.value, opts[..j])
      {
        assert opts[..j + 1][..j] == opts[..j];
        var line := RadioOption(field.name, opts[j], StrictEquals(field.value, opts[j]));
        Assoc(head, RadioOptions(field.name, field.value, opts[..j]), line);
        out := out + line;
      }
      assert opts[..|opts|] == opts;
    } else if field.kind == DropdownKind && field.options.Some? {
      var opts := field.options.value;
      out := out + SelectOpen(field.name);
      ghost var inSelect := out;
      for j := 0 to |opts|
        invariant out == inSelect + OptionLines(test, field.value, opts[..j])
      {
        assert opts[..j + 1][..j] == opts[..j];
        var line := OptionLine(opts[j], Selects(test, field.value, opts[j]));
        Assoc(inSelect, OptionLines(test, field.value, opts[..j]), line);
        out := out + line;
      }
      assert opts[..|opts|] == opts;
      Assoc(head, SelectOpen(field.name), OptionLines(test, field.value, opts));
      Assoc(head, SelectOpen(field.name) + OptionLines(test, field.value, opts), SelectClose);
      out := out + SelectClose;
    }
    assert out == head + Control(field, test);
    Assoc(html, GroupOpen + LabelLine(field.name), Control(field, test));
    Assoc(html, GroupOpen + LabelLine(field.name) + Control(field, test), GroupClose);
    out := out + GroupClose;
  }

  /**
   * `generateHTML`: a string accumulator grown field by field. With
   * `AsWritten` this is the page's output; with `Corrected` the selected
   * dropdown entries are marked.
   */
  method GenerateHtml(fields: seq<FormField>, test: SelectionTest) returns (html: string)
    ensures html == Form(fields, test)
    ensures |html| >= |FormOpen| && html[..|FormOpen|] == FormOpen
    ensures EndsWith(html, Submit + FormClose)
  {
    html := FormOpen;
    for i := 0 to |fields|
      invariant html == FormOpen + Blocks(fields[..i], test)
    {
      assert fields[..i + 1][..i] == fields[..i];
      Assoc(FormOpen, Blocks(fields[..i], test), FieldBlock(fields[i], test));
      html := AppendField(html, fields[i], test);
    }
    assert fields[..|fields|] == fields;
    html := html + Submit;
    html := html + FormClose;
    Assoc(FormOpen + Blocks(fields, test), Submit, FormClose);
    FormFrame(fields, test);
  }

  /** The document opens with `<form>` and closes with the submit button and `</form>`. */
  lemma FormFrame(fields: seq<FormField>, test: SelectionTest)
    ensures var html := Form(fields, test);
      |html| >= |FormOpen| && html[..|FormOpen|] == FormOpen && EndsWith(html, Submit + FormClose)
  {
    Assoc(FormOpen + Blocks(fields, test), Submit, FormClose);
  }

  // ---- properties ----

  /** Blocks concatenate: the output holds one block per field, in input order. */
  lemma BlocksAppend(a: seq<FormField>, b: seq<FormField>, test: SelectionTest)
    ensures Blocks(a + b, test) == Blocks(a, test) + Blocks(b, test)
  {
    ConcatMapAppend(f => FieldBlock(f, test), a, b);
  }

  /** Field `k`'s block sits between the blocks of the fields before it and after it. */
  lemma BlockAt(fields: seq<FormField>, k: nat, test: SelectionTest)
    requires k < |fields|
    ensures Form(fields, test) ==
      FormOpen + Blocks(fields[..k], test) + FieldBlock(fields[k], test) + Blocks(fields[k + 1..], test)
      + Submit + FormClose
  {
    ConcatMapAt(f => FieldBlock(f, test), fields, k);
    var before, block, after := Blocks(fields[..k], test), FieldBlock(fields[k], test), Blocks(fields[k + 1..], test);
    Assoc(FormOpen, before + block, after);
    Assoc(FormOpen, before, block);
  }

  /** The two tests give the same document for any form without a dropdown. */
  lemma OnlyDropdownsDiffer(fields: seq<FormField>)
    requires forall i :: 0 <= i < |fields| ==> fields[i].kind != DropdownKind
    ensures Form(fields, AsWritten) == Form(fields, Corrected)
  {
    forall f | f in fields
      ensures FieldBlock(f, AsWritten) == FieldBlock(f, Corrected)
    {
    }
    ConcatMapPointwise(f => FieldBlock(f, AsWritten), f => FieldBlock(f, Corrected), fields);
  }

  /**
   * The radio group of an extracted radio field: option `k` sits between the
   * options before and after it, and is checked exactly when it is the
   * option the PDF has chosen.
   */
  lemma RadioMarksChoice(name: string, chosen: Option<string>, opts: seq<string>, k: nat, test: SelectionTest)
    requires k < |opts|
    ensures var f := ExtractField(RadioGroup(name, chosen, opts));
      Control(f, test) == RadioOptions(name, f.value, opts[..k])
        + RadioOption(name, opts[k], chosen == Some(opts[k]))
        + RadioOptions(name, f.value, opts[k + 1..])
  {
    var f := ExtractField(RadioGroup(name, chosen, opts));
    ConcatMapAt(opt => RadioOption(name, opt, StrictEquals(f.value, opt)), opts, k);
  }

  /**
   * The select of an extracted dropdown, corrected: entry `k` carries
   * `selected` exactly when the PDF's selection contains it.
   */
  lemma DropdownMarksSelection(name: string, selected: seq<string>, opts: seq<string>, k: nat)
    requires k < |opts|
    ensures var v := List(selected);
      Control(ExtractField(Dropdown(name, selected, opts)), Corrected) == SelectOpen(name)
        + OptionLines(Corrected, v, opts[..k])
        + OptionLine(opts[k], opts[k] in selected)
        + OptionLines(Corrected, v, opts[k + 1..])
        + SelectClose
  {
    var v := List(selected);
    DropdownControl(name, selected, opts, Corrected);
    assert Selects(Corrected, v, opts[k]) == (opts[k] in selected);
    ConcatMapAt(opt => OptionLine(opt, Selects(Corrected, v, opt)), opts, k);
    var before, line, after := OptionLines(Corrected, v, opts[..k]), OptionLine(opts[k], opts[k] in selected),
      OptionLines(Corrected, v, opts[k + 1..]);
    assert OptionLines(Corrected, v, opts) == before + line + after;
    Assoc(SelectOpen(name), before + line, after);
    Assoc(SelectOpen(name), before, line);
  }

  /** An extracted dropdown becomes a select holding its option lines. */
  lemma DropdownControl(name: string, selected: seq<string>, opts: seq<string>, test: SelectionTest)
    ensures Control(ExtractField(Dropdown(name, selected, opts)), test) ==
      SelectOpen(name) + OptionLines(test, List(selected), opts) + SelectClose
  {
  }

  /**
   * As written, an extracted dropdown never marks any entry: whatever the PDF
   * has selected, its select is the one a dropdown with nothing selected gets.
   */
  lemma DropdownNeverSelected(name: string, selected: seq<string>, opts: seq<string>)
    ensures Control(ExtractField(Dropdown(name, selected, opts)), AsWritten) ==
      Control(ExtractField(Dropdown(name, [], opts)), Corrected)
  {
    var v, none := List(selected), List([]);
    ConcatMapPointwise(opt => OptionLine(opt, Selects(AsWritten, v, opt)),
                       opt => OptionLine(opt, Selects(Corrected, none, opt)), opts);
  }

  /**
   * The smallest case: of two options `a` and `b`, the PDF has `b` selected,
   * yet no line says `selected`; the corrected lines mark `b`.
   */
  lemma DropdownSelectionLost(a: string, b: string)
    requires a != b
    ensures OptionLines(AsWritten, List([b]), [a, b]) == OptionLine(a, false) + OptionLine(b, false)
    ensures OptionLines(Corrected, List([b]), [a, b]) == OptionLine(a, false) + OptionLine(b, true)
  {
    var v := List([b]);
    assert !Chosen(v, a) && Chosen(v, b) && !StrictEquals(v, a) && !StrictEquals(v, b);
    assert [a, b][..1] == [a] && [a, b][2..] == [] && [a][..0] == [] && [a][1..] == [];
    ConcatMapAt(opt => OptionLine(opt, Selects(Corrected, v, opt)), [a, b], 1);
    ConcatMapAt(opt => OptionLine(opt, Selects(Corrected, v, opt)), [a], 0);
    ConcatMapAt(opt => OptionLine(opt, Selects(AsWritten, v, opt)), [a, b], 1);
    ConcatMapAt(opt => OptionLine(opt, Selects(AsWritten, v, opt)), [a], 0);
    assert "" + OptionLine(a, false) + "" == OptionLine(a, false);
    assert OptionLine(a, false) + OptionLine(b, true) + "" == OptionLine(a, false) + OptionLine(b, true);
    assert OptionLine(a, false) + OptionLine(b, false) + "" == OptionLine(a, false) + OptionLine(b, false);
  }

  /** A text input carries the PDF's text, and the empty string when there is none. */
  lemma TextCarriesValue(name: string, text: Option<string>, test: SelectionTest)
    ensures FieldBlock(ExtractField(TextBox(name, text)), test) ==
      GroupOpen + LabelLine(name) + TextLine(name, text.GetOr("")) + GroupClose
  {
  }

  /** A checkbox carries `checked` exactly when the PDF's box is checked. */
  lemma CheckboxMarksState(name: string, checked: bool, test: SelectionTest)
    ensures FieldBlock(ExtractField(CheckBox(name, checked)), test) ==
      GroupOpen + LabelLine(name) + CheckboxLine(name, checked) + GroupClose
  {
  }

  /** Option lists, unknown fields and choice fields without options get a label and nothing else. */
  lemma LabelOnly(f: FormField, test: SelectionTest)
    requires f.kind == OptionListKind || f.kind == Unknown ||
      ((f.kind == Radio || f.kind == DropdownKind) && f.options.None?)
    ensures FieldBlock(f, test) == GroupOpen + LabelLine(f.name) + GroupClose
  {
  }

  /** A field's name appears unescaped in its label, right after the opening tag. */
  lemma NameVerbatim(name: string)
    ensures var at := |"    <label for=\""|;
      |LabelLine(name)| >= at + |name| && LabelLine(name)[at..at + |name|] == name
  {
    SliceMiddle("    <label for=\"", name, "\">" + name + "</label>\n");
    Assoc("    <label for=\"" + name, "\">" + name, "</label>\n");
    Assoc("    <label for=\"" + name, "\">", name);
    Assoc("    <label for=\"", name, "\">" + name + "</label>\n");
  }
}
