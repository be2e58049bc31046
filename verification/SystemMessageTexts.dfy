/** Where the texts of system messages end up in a rewritten body. */
module SystemMessageTexts {
  import opened Wrappers
  import opened SystemMessages
  import opened SystemMessageTheorems

  /** Item i is a system item behind the first conversation message. */
  predicate Later(items: seq<Json>, i: nat)
    requires i < |items|
  {
    IsSystem(items[i]) && Started(items[..i])
  }

  /** The texts found in the rewritten list `out`, at the places of those later items:
      `kept` says which item of the input each item of the output stands for. */
  function Carried(items: seq<Json>, kept: seq<nat>, out: seq<Json>): seq<string>
    requires |kept| == |out| && forall k | 0 <= k < |kept| :: kept[k] < |items|
    decreases |kept|
  {
    if kept == [] then []
    else
      var n := |kept| - 1;
      Carried(items, kept[..n], out[..n]) + (if Later(items, kept[n]) then ContentTexts(Content(out[n])) else [])
  }

  lemma {:induction false} CarriedInPrefix(items: seq<Json>, n: nat, kept: seq<nat>, out: seq<Json>)
    requires n <= |items| && |kept| == |out| && forall k | 0 <= k < |kept| :: kept[k] < n
    ensures Carried(items[..n], kept, out) == Carried(items, kept, out)
    decreases |kept|
  {
    hide ContentTexts, Content, IsSystem, Started;
    if kept != [] {
      var last := |kept| - 1;
      CarriedInPrefix(items, n, kept[..last], out[..last]);
      assert items[..n][..kept[last]] == items[..kept[last]] && items[..n][kept[last]] == items[kept[last]];
    }
  }

  lemma {:induction false} LaterConcat(a: seq<Json>, b: seq<Json>, started: bool)
    ensures LaterTexts(a + b, started) == LaterTexts(a, started) + LaterTexts(b, started || Started(a))
  {
    hide ContentTexts, IsSystem, Started;
    StartedSplit(a);
    if a == [] {
      assert a + b == b;
    } else {
      assert (a + b)[0] == a[0] && (a + b)[1..] == a[1..] + b;
      LaterConcat(a[1..], b, started || !IsSystem(a[0]));
    }
  }

  /** The texts one more item adds. */
  lemma LaterSnoc(items: seq<Json>)
    requires items != []
    ensures var n := |items| - 1;
            LaterTexts(items, false) ==
            LaterTexts(items[..n], false) + (if Later(items, n) then ContentTexts(Content(items[n])) else [])
  {
    hide ContentTexts, IsSystem, Started, Content;
    var n := |items| - 1;
    assert items == items[..n] + [items[n]];
    LaterConcat(items[..n], [items[n]], false);
    assert [items[n]][1..] == [] && [items[n]][0] == items[n];
  }

  /** What the last item of the output carries, if it stands for the last item. */
  lemma LastCarries(d: Dialect, items: seq<Json>, extend: bool)
    requires items != []
    ensures var n := |items| - 1;
            if Kept(items, n, extend) then
              Later(items, n) ==>
                ContentTexts(Content(KeptForm(d, items, n, extend))) == Wrapped(ContentTexts(Content(items[n])))
            else Later(items, n) ==> ContentTexts(Content(items[n])) == []
  {
    hide ContentTexts, IsSystem, Started, ReminderFor, Wrapped, Content;
    var n := |items| - 1;
    if Kept(items, n, extend) && Later(items, n) {
      ReminderExists(d, Content(items[n]));
      ReminderCarriesTexts(d, Content(items[n]));
    }
  }

  lemma CarriedSnoc(items: seq<Json>, kept: seq<nat>, out: seq<Json>, i: nat, last: Json)
    requires |kept| == |out| && i < |items| && forall k | 0 <= k < |kept| :: kept[k] < |items|
    ensures Carried(items, kept + [i], out + [last]) ==
            Carried(items, kept, out) + (if Later(items, i) then ContentTexts(Content(last)) else [])
  {
    hide Later, ContentTexts, Content;
    assert (kept + [i])[..|kept|] == kept && (out + [last])[..|out|] == out;
  }

  /** The reminders of the rewritten list carry the later texts. */
  ghost predicate Carries(d: Dialect, items: seq<Json>, extend: bool) {
    var kept, out := KeptIndexes(items, extend), Rewritten(d, items, false, extend);
    |kept| == |out| && Carried(items, kept, out) == Wrapped(LaterTexts(items, false))
  }

  lemma {:induction false} RewrittenCarries(d: Dialect, items: seq<Json>, extend: bool)
    ensures Carries(d, items, extend)
  {
    if items == [] {
      WrappedConcat([], []);
    } else {
      RewrittenCarries(d, items[..|items| - 1], extend);
      CarriesStep(d, items, extend);
    }
  }

  lemma CarriesStep(d: Dialect, items: seq<Json>, extend: bool)
    requires items != [] && Carries(d, items[..|items| - 1], extend)
    ensures Carries(d, items, extend)
  {
    hide Kept, KeptForm, Rewritten, Started, KeptIndexes, Later, LaterTexts, Wrapped, ContentTexts, Carried, Lists, Content;
    var n := |items| - 1;
    var kept, out := KeptIndexes(items[..n], extend), Rewritten(d, items[..n], false, extend);
    CarriedInPrefix(items, n, kept, out);
    RewrittenSnoc(d, items, extend);
    KeptUnfolds(items, extend);
    LaterSnoc(items);
    LastCarries(d, items, extend);
    WrappedConcat([], []);
    var added := if Later(items, n) then ContentTexts(Content(items[n])) else [];
    WrappedConcat(LaterTexts(items[..n], false), added);
    if Kept(items, n, extend) {
      CarriedSnoc(items, kept, out, n, KeptForm(d, items, n, extend));
    } else {
      assert kept + [] == kept && out + [] == out;
    }
  }

  // ------------------------------------------------ what is not a system message

  /** The items that carry neither the role system nor the role developer. */
  function Conversation(items: seq<Json>): seq<Json> {
    if items == [] then []
    else
      var n := |items| - 1;
      Conversation(items[..n])
      + if items[n].Obj? && "role" in items[n].fields && items[n].fields["role"] in {Str("system"), Str("developer")}
        then [] else [items[n]]
  }

  /** The items of the output that stand for items of the input without such a role. */
  function Spoken(items: seq<Json>, kept: seq<nat>, out: seq<Json>): seq<Json>
    requires |kept| == |out| && forall k | 0 <= k < |kept| :: kept[k] < |items|
    decreases |kept|
  {
    if kept == [] then []
    else
      var n := |kept| - 1;
      Spoken(items, kept[..n], out[..n]) + if IsSystem(items[kept[n]]) then [] else [out[n]]
  }

  lemma {:induction false} SpokenInPrefix(items: seq<Json>, n: nat, kept: seq<nat>, out: seq<Json>)
    requires n <= |items| && |kept| == |out| && forall k | 0 <= k < |kept| :: kept[k] < n
    ensures Spoken(items[..n], kept, out) == Spoken(items, kept, out)
    decreases |kept|
  {
    hide IsSystem;
    if kept != [] {
      var last := |kept| - 1;
      SpokenInPrefix(items, n, kept[..last], out[..last]);
    }
  }

  lemma SpokenSnoc(items: seq<Json>, kept: seq<nat>, out: seq<Json>, i: nat, last: Json)
    requires |kept| == |out| && i < |items| && forall k | 0 <= k < |kept| :: kept[k] < |items|
    ensures Spoken(items, kept + [i], out + [last]) == Spoken(items, kept, out) + if IsSystem(items[i]) then [] else [last]
  {
    hide IsSystem;
    assert (kept + [i])[..|kept|] == kept && (out + [last])[..|out|] == out;
  }

  lemma LastSpoken(d: Dialect, items: seq<Json>, extend: bool)
    requires items != []
    ensures var n := |items| - 1;
            && (!IsSystem(items[n]) ==> Kept(items, n, extend) && KeptForm(d, items, n, extend) == items[n])
            && Conversation(items) == Conversation(items[..n]) + if IsSystem(items[n]) then [] else [items[n]]
  {
  }

  /** The conversation comes out unchanged, complete and in order. */
  lemma {:induction false} RewrittenSpeaks(d: Dialect, items: seq<Json>, extend: bool)
    ensures var kept, out := KeptIndexes(items, extend), Rewritten(d, items, false, extend);
            |kept| == |out| && Spoken(items, kept, out) == Conversation(items)
  {
    RewriteKeepsOrder(d, items, extend);
    if items != [] {
      hide Kept, KeptForm, Rewritten, KeptIndexes, Conversation, Spoken, IsSystem, Lists;
      var n := |items| - 1;
      var kept, out := KeptIndexes(items[..n], extend), Rewritten(d, items[..n], false, extend);
      RewrittenSpeaks(d, items[..n], extend);
      SpokenInPrefix(items, n, kept, out);
      RewrittenSnoc(d, items, extend);
      KeptUnfolds(items, extend);
      LastSpoken(d, items, extend);
      if Kept(items, n, extend) {
        SpokenSnoc(items, kept, out, n, KeptForm(d, items, n, extend));
      } else {
        assert kept + [] == kept && out + [] == out;
      }
    }
  }

  // --------------------------------------------------------- what counts as text

  /** The texts of a content value, one part at a time: a string is its own text unless
      it is empty, a list has the non-empty string `text` of each object in it, and
      nothing else has any. */
  lemma TextsOneByOne(s: string, items: seq<Json>, part: Json)
    ensures ContentTexts(Str(s)) == if s == "" then [] else [s]
    ensures ContentTexts(Arr([])) == [] && ContentTexts(Null) == []
    ensures ContentTexts(Arr(items + [part])) == ContentTexts(Arr(items)) +
              if part.Obj? && "text" in part.fields && part.fields["text"].Str? && part.fields["text"].s != ""
              then [part.fields["text"].s] else []
    ensures !part.Str? && !part.Arr? ==> ContentTexts(part) == []
  {
    PartsConcat(items, [part]);
    assert [part][1..] == [];
  }

  /** The values that do not count as a marker. */
  lemma TruthyIff(j: Json)
    ensures !Truthy(j) <==>
            || j == Null || j == Bool(false) || j == Num(0.0) || j == Str("") || j == Arr([]) || j == Obj(map[])
  {
  }

  /** The marker that moves along is the last one any part carries. */
  lemma {:induction false} LastMarkerExact(parts: seq<Json>)
    requires forall i | 0 <= i < |parts| :: parts[i].Obj?
    ensures LastMarker(parts).None? ==> forall i | 0 <= i < |parts| :: !Truthy(Field(parts[i].fields, "cache_control"))
    ensures LastMarker(parts).Some? ==>
              exists i :: 0 <= i < |parts| && Truthy(LastMarker(parts).value)
                && Field(parts[i].fields, "cache_control") == LastMarker(parts).value
                && forall j | i < j < |parts| :: !Truthy(Field(parts[j].fields, "cache_control"))
  {
    hide Truthy;
    if parts != [] {
      var n := |parts| - 1;
      var marker := Field(parts[n].fields, "cache_control");
      if !Truthy(marker) {
        LastMarkerExact(parts[..n]);
      } else {
        assert LastMarker(parts) == Some(marker);
      }
    }
  }

  /** What a later system message turns into: a user message with nothing but a list of
      text blocks, one per text in its envelope, and on the last block of a Messages
      request the last cache_control marker of the original parts. */
  lemma ReminderShape(d: Dialect, content: Json)
    requires ReminderFor(d, content).Some?
    ensures var r, texts := ReminderFor(d, content).value, ContentTexts(content);
            && r.Obj? && Field(r.fields, "role") == Str("user") && Field(r.fields, "content").Arr?
            && r.fields.Keys == (if d.Messages? then {"role", "content"} else {"type", "role", "content"})
            && (d.Responses? ==> Field(r.fields, "type") == Str("message"))
            && var blocks := Field(r.fields, "content").items;
            && |blocks| == |texts| > 0
            && forall i | 0 <= i < |blocks| ::
                 && blocks[i].Obj?
                 && Field(blocks[i].fields, "type") == Str(if d.Messages? then "text" else "input_text")
                 && Field(blocks[i].fields, "text") == Str("<system-reminder>\n" + texts[i] + "\n</system-reminder>\n")
                 && blocks[i].fields.Keys - {"cache_control"} == {"type", "text"}
                 && Get(blocks[i].fields, "cache_control") ==
                    if d.Messages? && i == |blocks| - 1 then LastMarker(TextParts(content)) else None
  {
    hide LastMarker, TextParts;
    var parts := TextParts(content);
    BlocksNonEmpty(d, TextsOf(parts));
    TextsAre(content);
  }

  /** A rewrite raises exactly when some message has a list or an object as its role,
      and changes nothing but the messages and the prompt. */
  lemma RewriteReach(d: Dialect, body: Body)
    ensures var list := Field(body, if d.Messages? then "messages" else "input");
            Rewrite(d, body).Err? <==>
              list.Arr? && exists i | 0 <= i < |list.items| ::
                && list.items[i].Obj? && "role" in list.items[i].fields
                && (list.items[i].fields["role"].Arr? || list.items[i].fields["role"].Obj?)
    ensures Rewrite(d, body).Ok? ==>
              forall key | key !in (if d.Messages? then {"messages", "system"} else {"input", "instructions"}) ::
                Get(Rewrite(d, body).value, key) == Get(body, key)
  {
    hide Rewritten, Leading, Extended, CanExtend, IsSystem;
    var list := Field(body, ListKey(d));
    if list.Arr? {
      assert forall i | 0 <= i < |list.items| :: Unhashable(list.items[i]) <==>
        list.items[i].Obj? && "role" in list.items[i].fields
        && (list.items[i].fields["role"].Arr? || list.items[i].fields["role"].Obj?);
    }
  }

  /** So no message with a system role follows one without, whichever way it was put. */
  lemma NoSystemRoleLater(d: Dialect, body: Body, items: seq<Json>, i: nat, j: nat)
    requires Field(body, ListKey(d)) == Arr(items) && AllHashable(items)
    requires Rewrite(d, body).Ok? && Field(Rewrite(d, body).value, ListKey(d)).Arr?
    requires i < j < |Field(Rewrite(d, body).value, ListKey(d)).items|
    ensures var out := Field(Rewrite(d, body).value, ListKey(d)).items;
            out[j].Obj? && "role" in out[j].fields && out[j].fields["role"] in {Str("system"), Str("developer")} ==>
            out[i].Obj? && "role" in out[i].fields && out[i].fields["role"] in {Str("system"), Str("developer")}
  {
    var extend := CanExtend(d, Field(body, PromptKey(d)));
    assert ListKey(d) != PromptKey(d);
    RewriteForm(d, body, items);
    SystemStaysFirst(d, items, extend);
    var out := Rewritten(d, items, false, extend);
    hide Rewritten, Rewrite;
    assert Field(Rewrite(d, body).value, ListKey(d)) == Arr(out);
    if IsSystem(out[j]) {
      assert IsSystem(out[i]);
    }
  }

  lemma LeadingHasText(items: seq<Json>)
    requires Leading(items) != []
    ensures Leading(items)[0] != ""
  {
    if ContentTexts(Content(items[0])) == [] {
      LeadingHasText(items[1..]);
    } else {
      FirstText(Content(items[0]));
    }
  }

  lemma FirstText(content: Json)
    requires ContentTexts(content) != []
    ensures ContentTexts(content)[0] != ""
  {
    assert HasText(TextParts(content)[0]);
  }

  /** Main theorem, about the rewritten body. Its list is the kept items in order: the
      conversation unchanged and complete, and the items that stand for later system
      items carry exactly the later texts, each in its envelope, once and in order. The
      prompt keeps the blocks it had and reads as the old prompt followed by
      the leading texts, or is untouched where it cannot be extended (and the leading
      items then stay in the list) or there are none; and these texts are all there are. */
  lemma EveryTextOnce(d: Dialect, body: Body, items: seq<Json>)
    requires Field(body, ListKey(d)) == Arr(items) && AllHashable(items)
    ensures Rewrite(d, body).Ok?
    ensures var result, prompt := Rewrite(d, body).value, Field(body, PromptKey(d));
            var extend := prompt.Null? || prompt.Str? || (d.Messages? && prompt.Arr?);
            var kept := KeptIndexes(items, extend);
            && Field(result, ListKey(d)).Arr?
            && var out := Field(result, ListKey(d)).items;
            && Lists(d, items, extend, kept, out)
            && Spoken(items, kept, out) == Conversation(items)
            && Carried(items, kept, out) == Wrapped(LaterTexts(items, false))
            && (forall key | key != ListKey(d) && key != PromptKey(d) :: Get(result, key) == Get(body, key))
            && (extend && prompt.Arr? ==>
                  Field(result, PromptKey(d)).Arr? && prompt.items <= Field(result, PromptKey(d)).items)
            && (if extend && Leading(items) != []
                then Flat(ContentTexts(Field(result, PromptKey(d)))) == JoinText(Flat(ContentTexts(prompt)), Leading(items))
                else Field(result, PromptKey(d)) == prompt)
            && Leading(items) + LaterTexts(items, false) == SystemTexts(items)
  {
    hide Rewritten, Leading, LaterTexts, Carried, Spoken, Conversation, Kept, Lists, Extended, JoinText, ContentTexts, Wrapped, SystemTexts, KeptIndexes, Flat;
    var prompt := Field(body, PromptKey(d));
    var extend := CanExtend(d, prompt);
    assert ListKey(d) != PromptKey(d);
    RewriteForm(d, body, items);
    RewriteKeepsOrder(d, items, extend);
    RewrittenCarries(d, items, extend);
    RewrittenSpeaks(d, items, extend);
    TextsSplit(items);
    if extend && Leading(items) != [] {
      LeadingHasText(items);
      PromptFormsAgree(d, prompt, Leading(items));
      BlocksStay(d, prompt, Leading(items));
    }
  }

  lemma BlocksStay(d: Dialect, prompt: Json, additions: seq<string>)
    requires CanExtend(d, prompt) && additions != []
    ensures prompt.Arr? ==> Extended(d, prompt, additions).Arr? && prompt.items <= Extended(d, prompt, additions).items
  {
    hide ContentTexts;
  }
}
