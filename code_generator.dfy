/**
 * The demo's code generator: the HTML usage snippet of a component from its selector, its
 * property values, its event bindings and its content, and the event-handler stubs.
 */
module CodeGenerator {
  import opened Options
  import opened Text

  /** A property value as the playground holds it (`any`). */
  datatype PropertyValue =
    | Undefined
    | Null
    | Flag(b: bool)
    | Str(s: string)
    | Num(n: int)
    /** Any other value, with the text a template literal turns it into. */
    | Other(shown: string)

  /** An entry of the properties object, in the object's key order. */
  datatype Entry = Entry(key: string, value: PropertyValue)

  /** An event binding: event name and handler expression. */
  datatype EventBinding = EventBinding(event: string, handler: string)

  datatype ComponentConfig = ComponentConfig(
    selector: string,
    properties: seq<Entry>,
    events: Option<seq<EventBinding>>,
    content: Option<string>)

  /** The value a template literal shows. */
  function Shown(v: PropertyValue): string {
    match v
    case Undefined => "undefined"
    case Null => "null"
    case Flag(b) => if b then "true" else "false"
    case Str(s) => s
    case Num(n) => IntToString(n)
    case Other(t) => t
  }

  /** `formatProperties` filters out undefined, null and '' before formatting. */
  predicate Filtered(v: PropertyValue) {
    v.Undefined? || v.Null? || v == Str("")
  }

  /**
   * `formatProperties`' map step: one entry's attribute; a false flag gives '', which the
   * second filter drops.
   */
  function FormatEntry(e: Entry): string {
    match e.value
    case Flag(b) => if b then "\n  [" + e.key + "]=\"true\"" else ""
    case Str(s) => "\n  " + e.key + "=\"" + s + "\""
    case _ => "\n  [" + e.key + "]=\"" + Shown(e.value) + "\""
  }

  /** The values that produce an attribute: everything except undefined, null, '' and false. */
  predicate Emitted(v: PropertyValue) {
    !Filtered(v) && v != Flag(false)
  }

  /**
   * `formatProperties`: filter, map and join; the empty strings the second filter drops add
   * nothing to the join.
   */
  function FormatProperties(entries: seq<Entry>): (r: string)
  {
    if entries == [] then ""
    else (if Filtered(entries[0].value) then "" else FormatEntry(entries[0])) + FormatProperties(entries[1..])
  }

  /**
   * An emitted entry gives one attribute on its own line: `[key]="true"` for true,
   * `key="value"` for a string, and `[key]="value"` for anything else; the other entries
   * give nothing.
   */
  lemma FormatEntryForms(e: Entry)
    ensures !Emitted(e.value) ==> FormatProperties([e]) == ""
    ensures e.value == Flag(true) ==> FormatProperties([e]) == "\n  [" + e.key + "]=\"true\""
    ensures e.value.Str? && e.value.s != "" ==>
      FormatProperties([e]) == "\n  " + e.key + "=\"" + e.value.s + "\""
    ensures Emitted(e.value) && !e.value.Flag? && !e.value.Str? ==>
      FormatProperties([e]) == "\n  [" + e.key + "]=\"" + Shown(e.value) + "\""
    ensures Emitted(e.value) ==> |FormatProperties([e])| > 3 && FormatProperties([e])[..3] == "\n  "
  {
    assert [e][1..] == [];
  }

  /** Properties come out in key order: the entries of two parts give their attributes in turn. */
  lemma {:induction false} FormatPropertiesAppend(a: seq<Entry>, b: seq<Entry>)
    ensures FormatProperties(a + b) == FormatProperties(a) + FormatProperties(b)
  {
    if a == [] {
      assert a + b == b;
    } else {
      assert (a + b)[0] == a[0] && (a + b)[1..] == a[1..] + b;
      FormatPropertiesAppend(a[1..], b);
    }
  }

  /** An entry that is not emitted can be removed without changing the output. */
  lemma OmittedEntry(a: seq<Entry>, e: Entry, b: seq<Entry>)
    requires !Emitted(e.value)
    ensures FormatProperties(a + [e] + b) == FormatProperties(a + b)
  {
    FormatPropertiesAppend(a + [e], b);
    FormatPropertiesAppend(a, [e]);
    FormatPropertiesAppend(a, b);
    FormatEntryForms(e);
  }

  /** `formatEvents`: `(event)="handler"` per binding, each on its own line. */
  function FormatEvents(events: seq<EventBinding>): (r: string)
  {
    if events == [] then ""
    else "\n  (" + events[0].event + ")=\"" + events[0].handler + "\"" + FormatEvents(events[1..])
  }

  /** Events come out in key order, one `(event)="handler"` line each. */
  lemma {:induction false} FormatEventsAppend(a: seq<EventBinding>, b: seq<EventBinding>)
    ensures FormatEvents(a + b) == FormatEvents(a) + FormatEvents(b)
  {
    if a == [] {
      assert a + b == b;
    } else {
      assert (a + b)[0] == a[0] && (a + b)[1..] == a[1..] + b;
      FormatEventsAppend(a[1..], b);
    }
  }

  /** Every binding adds its own line, so the output grows with each binding. */
  lemma {:induction false} FormatEventsLength(events: seq<EventBinding>)
    ensures |FormatEvents(events)| >= 7 * |events|
  {
    if events != [] {
      FormatEventsLength(events[1..]);
    }
  }

  /** `generateHTMLCode`. */
  function GenerateHTMLCode(config: ComponentConfig): string {
    var props := FormatProperties(config.properties);
    var events := if config.events.Some? then FormatEvents(config.events.value) else "";
    var content := config.content.GetOr("");
    if content != "" then
      "<" + config.selector + props + events + ">\n  " + content + "\n</" + config.selector + ">"
    else
      "<" + config.selector + props + events + "></" + config.selector + ">"
  }

  /**
   * The snippet is the opening tag with the attributes and bindings, then the content on its
   * own indented line when there is any, then the closing tag.
   */
  lemma GenerateHTMLCodeShape(config: ComponentConfig)
    ensures var r := GenerateHTMLCode(config);
      var events := if config.events.Some? then FormatEvents(config.events.value) else "";
      var open := "<" + config.selector + FormatProperties(config.properties) + events + ">";
      var close := "</" + config.selector + ">";
      var content := config.content.GetOr("");
      |open| + |close| <= |r| && r[..|open|] == open && r[|r| - |close|..] == close &&
      (content == "" <==> |r| == |open| + |close|) &&
      (content != "" ==> r[|open|..|r| - |close|] == "\n  " + content + "\n")
  {
    var r := GenerateHTMLCode(config);
    var events := if config.events.Some? then FormatEvents(config.events.value) else "";
    var open := "<" + config.selector + FormatProperties(config.properties) + events + ">";
    var close := "</" + config.selector + ">";
    var content := config.content.GetOr("");
    if content != "" {
      assert r == open + ("\n  " + content + "\n") + close;
    } else {
      assert r == open + close;
    }
  }

  /** `capitalize`: the first character upper-cased (ASCII letters), the rest unchanged. */
  function Capitalize(s: string): (r: string)
    ensures |r| == |s|
    ensures s != [] ==> r[0] == UpperChar(s[0]) && r[1..] == s[1..]
  {
    if s == [] then "" else [UpperChar(s[0])] + s[1..]
  }

  /** Capitalising a capitalised name changes nothing. */
  lemma CapitalizeIdempotent(s: string)
    ensures Capitalize(Capitalize(s)) == Capitalize(s)
  {
    if s != [] {
      var c := Capitalize(s);
      assert !IsLowerAscii(c[0]);
      assert Capitalize(c) == [UpperChar(c[0])] + c[1..];
    }
  }

  /** `generateEventHandler`: the handler's name. */
  function HandlerName(eventName: string): string {
    "on" + Capitalize(eventName)
  }

  /** Two events get the same handler name exactly when they differ at most in the case of their first letter. */
  lemma HandlerNameSame(a: string, b: string)
    ensures HandlerName(a) == HandlerName(b) <==>
      |a| == |b| && (a == [] || (UpperChar(a[0]) == UpperChar(b[0]) && a[1..] == b[1..]))
  {
    if |a| == |b| && a != [] && UpperChar(a[0]) == UpperChar(b[0]) && a[1..] == b[1..] {
      assert Capitalize(a) == [UpperChar(a[0])] + a[1..] == Capitalize(b);
    }
    if HandlerName(a) == HandlerName(b) {
      assert Capitalize(a) == HandlerName(a)[2..] == HandlerName(b)[2..] == Capitalize(b);
    }
  }

  /** `generateEventHandler`: a method stub named after the event that logs it. */
  function GenerateEventHandler(eventName: string): (r: string)
    ensures |HandlerName(eventName)| < |r| && r[..|HandlerName(eventName)|] == HandlerName(eventName)
  {
    HandlerName(eventName) + "(event: any): void {\n    console.log('" + eventName +
      " triggered:', event);\n    // Handle " + eventName + " event\n  }"
  }
}
