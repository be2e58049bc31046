/** Rewriting mid-conversation system messages, for the Messages and the Responses
    request bodies. */
module SystemMessages {
  import opened Wrappers

  datatype Json =
    | Null
    | Bool(b: bool)
    | Num(n: real)
    | Str(s: string)
    | Arr(items: seq<Json>)
    | Obj(fields: map<string, Json>)

  type Body = map<string, Json>

  /** `dict.get`. */
  function Field(o: map<string, Json>, key: string): Json {
    if key in o then o[key] else Null
  }

  /** The two request formats that are rewritten. */
  datatype Dialect = Messages | Responses

  function ListKey(d: Dialect): string {
    if d.Messages? then "messages" else "input"
  }

  function PromptKey(d: Dialect): string {
    if d.Messages? then "system" else "instructions"
  }

  // ------------------------------------------------------------------ helpers

  predicate IsSystem(item: Json) {
    item.Obj? && (Field(item.fields, "role") == Str("system") || Field(item.fields, "role") == Str("developer"))
  }

  /** A list or an object as a role cannot be looked up in a set: TypeError. */
  predicate Unhashable(item: Json) {
    item.Obj? && (Field(item.fields, "role").Arr? || Field(item.fields, "role").Obj?)
  }

  predicate HasText(part: Json) {
    part.Obj? && Field(part.fields, "text").Str? && Field(part.fields, "text").s != ""
  }

  /** `_text_parts`: the parts of a content value that carry any text. */
  function TextParts(content: Json): (parts: seq<Json>)
    ensures forall i | 0 <= i < |parts| :: HasText(parts[i])
  {
    match content
    case Str(s) => if s == "" then [] else [Obj(map["text" := Str(s)])]
    case Arr(items) => PartsWithText(items)
    case _ => []
  }

  function PartsWithText(items: seq<Json>): (parts: seq<Json>)
    ensures forall i | 0 <= i < |parts| :: HasText(parts[i])
  {
    if items == [] then []
    else (if HasText(items[0]) then [items[0]] else []) + PartsWithText(items[1..])
  }

  function TextOf(part: Json): string
    requires HasText(part)
  {
    part.fields["text"].s
  }

  function TextsOf(parts: seq<Json>): seq<string>
    requires forall i | 0 <= i < |parts| :: HasText(parts[i])
  {
    seq(|parts|, i requires 0 <= i < |parts| => TextOf(parts[i]))
  }

  function ContentTexts(content: Json): seq<string> {
    TextsOf(TextParts(content))
  }

  function Reminder(text: string): string {
    "<system-reminder>\n" + text + "\n</system-reminder>\n"
  }

  /** `"\n\n".join`. */
  function Joined(texts: seq<string>): string {
    if texts == [] then ""
    else if |texts| == 1 then texts[0]
    else texts[0] + "\n\n" + Joined(texts[1..])
  }

  function JoinText(existing: string, additions: seq<string>): string {
    Joined(if existing != "" then [existing] + additions else additions)
  }

  function TextBlock(text: string): Json {
    Obj(map["type" := Str("text"), "text" := Str(text)])
  }

  /** `_anthropic_system_with`, and `_join_text` for instructions. */
  function Extended(d: Dialect, prompt: Json, additions: seq<string>): Json
    requires CanExtend(d, prompt) && additions != []
  {
    match prompt
    case Null => Str(Joined(additions))
    case Str(s) => Str(JoinText(s, additions))
    case Arr(items) =>
      var separator := if ContentTexts(prompt) != [] then "\n\n" else "";
      Arr(items + [TextBlock(separator + additions[0])]
          + seq(|additions| - 1, i requires 0 <= i < |additions| - 1 => TextBlock("\n\n" + additions[i + 1])))
  }

  predicate CanExtend(d: Dialect, prompt: Json) {
    prompt.Null? || prompt.Str? || (d.Messages? && prompt.Arr?)
  }

  predicate Truthy(j: Json) {
    match j
    case Null => false
    case Bool(b) => b
    case Num(n) => n != 0.0
    case Str(s) => s != ""
    case Arr(items) => items != []
    case Obj(fields) => fields != map[]
  }

  /** The last truthy cache_control marker among the parts. */
  function LastMarker(parts: seq<Json>): Option<Json>
    requires forall i | 0 <= i < |parts| :: parts[i].Obj?
  {
    if parts == [] then None
    else
      var marker := Field(parts[|parts| - 1].fields, "cache_control");
      if Truthy(marker) then Some(marker) else LastMarker(parts[..|parts| - 1])
  }

  function Blocks(d: Dialect, texts: seq<string>): seq<Json> {
    var kind := if d.Messages? then "text" else "input_text";
    seq(|texts|, i requires 0 <= i < |texts| => Obj(map["type" := Str(kind), "text" := Str(Reminder(texts[i]))]))
  }

  function WithMarker(blocks: seq<Json>, marker: Option<Json>): seq<Json>
    requires blocks != [] && blocks[|blocks| - 1].Obj?
  {
    if marker.None? then blocks
    else
      var last := |blocks| - 1;
      blocks[last := Obj(blocks[last].fields["cache_control" := marker.value])]
  }

  /** `_anthropic_reminder` and `_responses_reminder`: a later system message as a
      user turn, one envelope per text part; nothing when there is no text. */
  function ReminderFor(d: Dialect, content: Json): Option<Json> {
    var parts := TextParts(content);
    if parts == [] then None
    else
      var blocks := Blocks(d, TextsOf(parts));
      match d
      case Messages => Some(Obj(map["role" := Str("user"), "content" := Arr(WithMarker(blocks, LastMarker(parts)))]))
      case Responses => Some(Obj(map["type" := Str("message"), "role" := Str("user"), "content" := Arr(blocks)]))
  }

  // -------------------------------------------------------------- the rewrite

  function Content(item: Json): Json {
    if item.Obj? then Field(item.fields, "content") else Null
  }

  /** What one item becomes, depending on whether the conversation has started. */
  function Image(d: Dialect, item: Json, started: bool, extend: bool): seq<Json> {
    if !IsSystem(item) then [item]
    else if !started then (if extend then [] else [item])
    else
      match ReminderFor(d, Content(item))
      case None => []
      case Some(reminder) => [reminder]
  }

  function Rewritten(d: Dialect, items: seq<Json>, started: bool, extend: bool): seq<Json> {
    if items == [] then []
    else Image(d, items[0], started, extend) + Rewritten(d, items[1..], started || !IsSystem(items[0]), extend)
  }

  /** The texts that join the prompt. */
  function Leading(items: seq<Json>): seq<string> {
    if items == [] || !IsSystem(items[0]) then []
    else ContentTexts(Content(items[0])) + Leading(items[1..])
  }

  function LeadingTexts(items: seq<Json>, extend: bool): seq<string> {
    if extend then Leading(items) else []
  }

  datatype Failure = RoleTypeError

  predicate AnySystem(items: seq<Json>) {
    exists i | 0 <= i < |items| :: IsSystem(items[i])
  }

  predicate AllHashable(items: seq<Json>) {
    forall i | 0 <= i < |items| :: !Unhashable(items[i])
  }

  function Rewrite(d: Dialect, body: Body): Result<Body, Failure> {
    var list := Field(body, ListKey(d));
    if !list.Arr? then Ok(body)
    else if !AllHashable(list.items) then Err(RoleTypeError)
    else if !AnySystem(list.items) then Ok(body)
    else
      var prompt := Field(body, PromptKey(d));
      var extend := CanExtend(d, prompt);
      var leading := LeadingTexts(list.items, extend);
      var result := body[ListKey(d) := Arr(Rewritten(d, list.items, false, extend))];
      Ok(if leading == [] then result else result[PromptKey(d) := Extended(d, prompt, leading)])
  }

  /** The pass over the items, which keeps `leading`, `rewritten` and `started`. */
  method RewriteItems(d: Dialect, messages: seq<Json>, extend: bool) returns (leading: seq<string>, rewritten: seq<Json>)
    ensures leading == LeadingTexts(messages, extend)
    ensures rewritten == Rewritten(d, messages, false, extend)
  {
    hide ReminderFor, ContentTexts, IsSystem, Content, Rewritten, Leading, Ahead;
    leading, rewritten := [], [];
    var started := false;
    AheadOfAll(d, messages, extend);
    for i := 0 to |messages|
      invariant Ahead(d, messages, i, started, extend, leading, rewritten)
    {
      var message := messages[i];
      AheadStep(d, messages, i, started, extend, leading, rewritten);
      assert rewritten + [] == rewritten && leading + [] == leading;
      if !IsSystem(message) {
        started := true;
        rewritten := rewritten + [message];
      } else if !started {
        if extend {
          leading := leading + ContentTexts(Content(message));
        } else {
          rewritten := rewritten + [message];
        }
      } else {
        var reminder := ReminderFor(d, Content(message));
        if reminder.Some? {
          rewritten := rewritten + [reminder.value];
        }
      }
    }
    AheadOfNone(d, messages, started, extend, leading, rewritten);
  }

  /** What was gathered from the first i items, followed by what the others will
      give, is the whole result. */
  ghost predicate Ahead(
    d: Dialect, items: seq<Json>, i: nat, started: bool, extend: bool, leading: seq<string>, rewritten: seq<Json>)
    requires i <= |items|
  {
    && rewritten + Rewritten(d, items[i..], started, extend) == Rewritten(d, items, false, extend)
    && LeadingTexts(items, extend) == leading + (if started then [] else LeadingTexts(items[i..], extend))
  }

  lemma AheadOfAll(d: Dialect, items: seq<Json>, extend: bool)
    ensures Ahead(d, items, 0, false, extend, [], [])
  {
    assert items[0..] == items;
  }

  lemma AheadOfNone(
    d: Dialect, items: seq<Json>, started: bool, extend: bool, leading: seq<string>, rewritten: seq<Json>)
    requires Ahead(d, items, |items|, started, extend, leading, rewritten)
    ensures leading == LeadingTexts(items, extend) && rewritten == Rewritten(d, items, false, extend)
  {
    assert items[|items|..] == [];
  }

  lemma AheadStep(
    d: Dialect, items: seq<Json>, i: nat, started: bool, extend: bool, leading: seq<string>, rewritten: seq<Json>)
    requires i < |items| && Ahead(d, items, i, started, extend, leading, rewritten)
    ensures var gathered := if IsSystem(items[i]) && !started && extend then ContentTexts(Content(items[i])) else [];
            Ahead(d, items, i + 1, started || !IsSystem(items[i]), extend,
                  leading + gathered, rewritten + Image(d, items[i], started, extend))
  {
    hide IsSystem, Image, ContentTexts, Content;
    assert items[i..][0] == items[i] && items[i..][1..] == items[i + 1..];
  }

  /** Both `inline_*` functions: they return a new body and never change the input. */
  method Inline(d: Dialect, body: Body) returns (result: Result<Body, Failure>)
    ensures result == Rewrite(d, body)
  {
    hide Extended, Leading, Rewritten, IsSystem, CanExtend, ListKey, PromptKey;
    var list := Field(body, ListKey(d));
    if !list.Arr? {
      return Ok(body);
    }
    if !AllHashable(list.items) {
      return Err(RoleTypeError);
    }
    if !AnySystem(list.items) {
      return Ok(body);
    }
    var prompt := Field(body, PromptKey(d));
    var extend := CanExtend(d, prompt);
    var leading, rewritten := RewriteItems(d, list.items, extend);
    var copy := body[ListKey(d) := Arr(rewritten)];
    if leading != [] {
      copy := copy[PromptKey(d) := Extended(d, prompt, leading)];
    }
    result := Ok(copy);
  }
}
