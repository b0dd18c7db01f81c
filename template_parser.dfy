/** `parseTemplateVariables`: expansion of `{{ name }}` and
    `{{ name | default }}` references, a three-phase character machine with a
    one-character hold-back buffer for escapes and doubled braces. */
module TemplateParser {
  import opened Wrappers
  import opened JsText

  /** `lastChar`: the character held back and not yet emitted. */
  datatype Held = Nothing | Backslash | OpenBrace | CloseBrace

  function HeldText(h: Held): string {
    match h
    case Nothing => ""
    case Backslash => "\\"
    case OpenBrace => "{"
    case CloseBrace => "}"
  }

  /** What `deEscape` hands back for one character: the text it releases,
      whether that character completed an unescaped `{{` or `}}`, and the new
      held character. */
  datatype Step = Step(text: string, doubled: bool, held: Held)

  /** `deEscape(char)`. After a backslash any character is literal. A brace is
      held back until the next character shows whether it is doubled. A
      backslash is held back and releases nothing, so a brace held before it
      is lost. Any other character releases the held brace and itself. */
  function DeEscape(held: Held, c: char): (r: Step)
    ensures r.doubled ==> held != Backslash && (c == '{' || c == '}') && r.text == [c, c] && r.held == Nothing
    ensures r.held == Backslash <==> held != Backslash && c == '\\'
    ensures held == Backslash ==> r == Step([c], false, Nothing)
  {
    if held == Backslash then Step([c], false, Nothing)
    else if c == '{' || c == '}' then
      if HeldText(held) == [c] then Step([c, c], true, Nothing)
      else Step(HeldText(held), false, if c == '{' then OpenBrace else CloseBrace)
    else if c == '\\' then Step("", false, Backslash)
    else Step(HeldText(held) + [c], false, Nothing)
  }

  const FailedOpen := "<span class='failed-substitution'>"
  const FailedClose := "</span>"

  /** The visible marker for a reference nothing resolves. */
  function Marker(name: string): string {
    FailedOpen + name + FailedClose
  }

  /** The reference has neither a configured value nor a default segment: the
      case in which the source logs a warning. */
  predicate Unresolved(vars: map<string, string>, name: string, default: Option<string>) {
    name !in vars && default.None?
  }

  /** `addValue()`: the text a finished reference inserts. A configured value
      wins over the default segment, the default segment (even an empty one)
      wins over the marker, and whatever is inserted is trimmed. */
  function Substitute(vars: map<string, string>, name: string, default: Option<string>): (r: string)
    ensures Trimmed(r)
    ensures name in vars ==> r == Trim(vars[name])
    ensures name !in vars && default.Some? ==> r == Trim(default.value)
    ensures Unresolved(vars, name, default) && Trimmed(name) ==> r == Marker(name)
  {
    var value :=
      if name in vars then vars[name]
      else if default.Some? then default.value
      else Marker(name);
    TrimSpec(value);
    Trim(value)
  }

  /** The output produced from position `i` of `s` on while outside any
      reference, with `held` held back. */
  function Outside(vars: map<string, string>, s: string, i: nat, held: Held): string
    requires i <= |s|
    decreases |s| - i
  {
    if i == |s| then ""
    else
      var d := DeEscape(held, s[i]);
      if d.doubled && d.text == "{{" then InName(vars, s, i + 1, "")
      else d.text + Outside(vars, s, i + 1, d.held)
  }

  /** The output produced from position `i` of `s` on while reading a name
      that so far is `name`. Names have no escapes: `|` ends the name, `}}`
      ends the reference (the second `}` is consumed by looking ahead), a `}`
      not followed by `}` belongs to the name. */
  function InName(vars: map<string, string>, s: string, i: nat, name: string): string
    requires i <= |s|
    decreases |s| - i
  {
    if i == |s| then ""
    else if s[i] == '|' then InDefault(vars, s, i + 1, Trim(name), "", Nothing)
    else if s[i] == '}' && i + 1 < |s| && s[i + 1] == '}' then
      Substitute(vars, Trim(name), None) + Outside(vars, s, i + 2, Nothing)
    else InName(vars, s, i + 1, name + [s[i]])
  }

  /** The output produced from position `i` of `s` on while reading the
      default segment of reference `name`, which so far is `default`. */
  function InDefault(vars: map<string, string>, s: string, i: nat, name: string, default: string, held: Held): string
    requires i <= |s|
    decreases |s| - i
  {
    if i == |s| then ""
    else
      var d := DeEscape(held, s[i]);
      if d.doubled && d.text == "}}" then
        Substitute(vars, name, Some(default)) + Outside(vars, s, i + 1, Nothing)
      else InDefault(vars, s, i + 1, name, default + d.text, d.held)
  }

  /** The expansion of a whole document. */
  function Expand(vars: map<string, string>, content: string): string {
    Outside(vars, content, 0, Nothing)
  }

  datatype Phase = OutsideReference | InsideName | InsideDefault

  /** The variables of the machine between two characters: `phase`,
      `lastChar`, `name` and `defaultValue`. */
  datatype MachineState = MachineState(phase: Phase, lastChar: Held, name: string, defaultValue: Option<string>)

  const Start := MachineState(OutsideReference, Nothing, "", None)

  /** Nothing is held while a name is read, and a default value exists only
      in the default phase. */
  predicate Consistent(st: MachineState) {
    && (st.phase == InsideName ==> st.lastChar == Nothing)
    && (st.phase != InsideDefault ==> st.defaultValue == None)
  }

  /** The output still to come from position `i` on in state `st`. */
  function Remaining(vars: map<string, string>, s: string, i: nat, st: MachineState): string
    requires i <= |s|
  {
    match st.phase
    case OutsideReference => Outside(vars, s, i, st.lastChar)
    case InsideName => InName(vars, s, i, st.name)
    case InsideDefault => InDefault(vars, s, i, st.name, st.defaultValue.GetOr(""), st.lastChar)
  }

  lemma ConcatAssociative(a: string, b: string, c: string)
    ensures (a + b) + c == a + (b + c)
  {
  }

  /** The `outside` case of the loop body for character `content[i]`. */
  method OutsideStep(vars: map<string, string>, content: string, i: nat, st: MachineState)
    returns (emitted: string, st': MachineState)
    requires i < |content| && st.phase == OutsideReference && Consistent(st)
    ensures Consistent(st')
    ensures emitted + Remaining(vars, content, i + 1, st') == Remaining(vars, content, i, st)
  {
    var d := DeEscape(st.lastChar, content[i]);
    if d.doubled && d.text == "{{" {
      emitted, st' := "", MachineState(InsideName, Nothing, "", st.defaultValue);
    } else {
      emitted, st' := d.text, st.(lastChar := d.held);
    }
  }

  /** The `insideName` case of the loop body for character `content[i]`; a
      closing `}}` also consumes `content[i + 1]`. */
  method NameStep(vars: map<string, string>, content: string, i: nat, st: MachineState)
    returns (emitted: string, st': MachineState, next: nat)
    requires i < |content| && st.phase == InsideName && Consistent(st)
    ensures i < next <= |content| && Consistent(st')
    ensures emitted + Remaining(vars, content, next, st') == Remaining(vars, content, i, st)
  {
    var c := content[i];
    next := i + 1;
    emitted := "";
    if c == '|' {
      st' := st.(name := Trim(st.name), phase := InsideDefault);
    } else if c == '}' {
      // look ahead for the second `}`
      if i + 1 < |content| && content[i + 1] == '}' {
        var name := Trim(st.name);
        emitted := Substitute(vars, name, st.defaultValue);
        next := i + 2;
        st' := MachineState(OutsideReference, st.lastChar, "", None);
      } else {
        st' := st.(name := st.name + [c]);
      }
    } else {
      st' := st.(name := st.name + [c]);
    }
  }

  /** The `insideDefault` case of the loop body for character `content[i]`. */
  method DefaultStep(vars: map<string, string>, content: string, i: nat, st: MachineState)
    returns (emitted: string, st': MachineState)
    requires i < |content| && st.phase == InsideDefault && Consistent(st)
    ensures Consistent(st')
    ensures emitted + Remaining(vars, content, i + 1, st') == Remaining(vars, content, i, st)
  {
    var d := DeEscape(st.lastChar, content[i]);
    if d.doubled && d.text == "}}" {
      var defaultValue := Some(st.defaultValue.GetOr(""));
      emitted := Substitute(vars, st.name, defaultValue);
      st' := MachineState(OutsideReference, d.held, "", None);
    } else {
      emitted := "";
      st' := st.(lastChar := d.held, defaultValue := Some(st.defaultValue.GetOr("") + d.text));
    }
  }

  /** `parseTemplateVariables(content)` against the variables of the current
      configuration. */
  method ParseTemplateVariables(vars: map<string, string>, content: string) returns (output: string)
    ensures output == Expand(vars, content)
  {
    var st := Start;
    output := "";
    var i := 0;
    while i < |content|
      invariant 0 <= i <= |content| && Consistent(st)
      invariant output + Remaining(vars, content, i, st) == Expand(vars, content)
    {
      var emitted, next;
      match st.phase {
        case OutsideReference =>
          emitted, st := OutsideStep(vars, content, i, st);
          next := i + 1;
        case InsideName =>
          emitted, st, next := NameStep(vars, content, i, st);
        case InsideDefault =>
          emitted, st := DefaultStep(vars, content, i, st);
          next := i + 1;
      }
      ConcatAssociative(output, emitted, Remaining(vars, content, next, st));
      output := output + emitted;
      i := next;
    }
  }
}
