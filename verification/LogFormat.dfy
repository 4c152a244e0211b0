/** The JSON fragment that Logger.hpp prints for a message with its diagnostic context. */
module LogFormat {
  import opened Bytes

  datatype Item = Item(key: string, value: string)

  // ----- printing -----

  function EscapeChar(c: char): string {
    if c == '"' then "\\\"" else if c == '\\' then "\\\\" else [c]
  }

  function Escape(s: string): string {
    if s == [] then [] else EscapeChar(s[0]) + Escape(s[1..])
  }

  lemma EscapeStep(out: string, s: string, i: nat)
    requires i < |s|
    ensures out + Escape(s[i..]) == (out + EscapeChar(s[i])) + Escape(s[i + 1..])
  {
    assert s[i..][1..] == s[i + 1..];
  }

  /** escape */
  method EscapeText(s: string) returns (out: string)
    ensures out == Escape(s)
  {
    out := [];
    assert s[0..] == s;
    for i := 0 to |s|
      invariant Escape(s) == out + Escape(s[i..])
    {
      EscapeStep(out, s, i);
      if s[i] == '"' {
        out := out + "\\\"";
      } else if s[i] == '\\' {
        out := out + "\\\\";
      } else {
        out := out + [s[i]];
      }
    }
  }

  function Quoted(s: string): string {
    "\"" + Escape(s) + "\""
  }

  function ItemText(it: Item): string {
    Quoted(it.key) + ":" + Quoted(it.value)
  }

  /** The items after the first, each with its comma. */
  function MoreItems(items: seq<Item>): string {
    if items == [] then [] else "," + ItemText(items[0]) + MoreItems(items[1..])
  }

  function ContextText(items: seq<Item>): string {
    "{" + (if items == [] then [] else ItemText(items[0]) + MoreItems(items[1..])) + "}"
  }

  lemma MoreStep(out: string, items: seq<Item>, i: nat)
    requires i < |items|
    ensures out + MoreItems(items[i..]) == (out + "," + ItemText(items[i])) + MoreItems(items[i + 1..])
  {
    assert items[i..][1..] == items[i + 1..];
  }

  /** The entry of one key, as the loop appends it. */
  method EntryText(it: Item) returns (out: string)
    ensures out == ItemText(it)
  {
    var key := EscapeText(it.key);
    var value := EscapeText(it.value);
    out := ("\"" + key + "\"") + ":" + ("\"" + value + "\"");
  }

  /** The text after i items. */
  function Printed(items: seq<Item>, i: nat): string
    requires i <= |items|
  {
    if i == 0 then "{"
    else if i == 1 then "{" + ItemText(items[0])
    else Printed(items, i - 1) + "," + ItemText(items[i - 1])
  }

  lemma {:induction false} PrintedFrom(items: seq<Item>, i: nat)
    requires 1 <= i <= |items|
    ensures Printed(items, i) + MoreItems(items[i..]) == "{" + ItemText(items[0]) + MoreItems(items[1..])
    decreases i
  {
    if i > 1 {
      MoreStep(Printed(items, i - 1), items, i - 1);
      PrintedFrom(items, i - 1);
    }
  }

  lemma PrintedAll(items: seq<Item>)
    ensures Printed(items, |items|) + "}" == ContextText(items)
  {
    if items != [] {
      PrintedFrom(items, |items|);
      assert MoreItems(items[|items|..]) == [];
      assert Printed(items, |items|) + [] == Printed(items, |items|);
      Regroup("{", ItemText(items[0]), MoreItems(items[1..]));
    }
  }

  /** mdc_to_json, for the order in which the map happens to be walked. */
  method ContextJson(items: seq<Item>) returns (out: string)
    ensures out == ContextText(items)
  {
    out := "{";
    var first := true;
    for i := 0 to |items|
      invariant first == (i == 0)
      invariant out == Printed(items, i)
    {
      if !first { out := out + ","; }
      var entry := EntryText(items[i]);
      out := out + entry;
      first := false;
    }
    PrintedAll(items);
    out := out + "}";
  }

  function MessageText(message: string, items: seq<Item>): string {
    "\"message\":" + Quoted(message) + ",\"mdc\":" + ContextText(items)
  }

  /** format_with_mdc */
  method FormatWithContext(message: string, items: seq<Item>) returns (out: string)
    ensures out == MessageText(message, items)
  {
    var text := EscapeText(message);
    var context := ContextJson(items);
    out := "\"message\":" + ("\"" + text + "\"") + ",\"mdc\":" + context;
  }

  // ----- a reader that undoes backslashes -----

  /** After an opening quote: the text up to the closing one, and what follows. */
  function ReadText(s: string): Option<(string, string)> {
    if s == [] then None
    else if s[0] == '"' then Some(([], s[1..]))
    else if s[0] == '\\' then
      if |s| < 2 then None else Prepend(s[1], ReadText(s[2..]))
    else Prepend(s[0], ReadText(s[1..]))
  }

  function Prepend(c: char, r: Option<(string, string)>): Option<(string, string)> {
    if r.None? then None else Some(([c] + r.value.0, r.value.1))
  }

  function Expect(s: string, prefix: string): Option<string> {
    if prefix <= s then Some(s[|prefix|..]) else None
  }

  function ReadQuoted(s: string): Option<(string, string)> {
    if Expect(s, "\"").None? then None else ReadText(s[1..])
  }

  function ReadItem(s: string): (r: Option<(Item, string)>)
    ensures r.Some? ==> |r.value.1| <= |s|
  {
    var k := ReadQuoted(s);
    if k.None? || Expect(k.value.1, ":").None? then None else
      var v := ReadQuoted(k.value.1[1..]);
      if v.None? then None
      else if |v.value.1| > |s| then None
      else Some((Item(k.value.0, v.value.0), v.value.1))
  }

  /** Items up to the closing brace. */
  function ReadMore(s: string): Option<(seq<Item>, string)>
    decreases |s|
  {
    if Expect(s, "}").Some? then Some(([], s[1..]))
    else if Expect(s, ",").None? then None else
      var it := ReadItem(s[1..]);
      if it.None? then None else
        var rest := ReadMore(it.value.1);
        if rest.None? then None else Some(([it.value.0] + rest.value.0, rest.value.1))
  }

  function ReadContext(s: string): Option<(seq<Item>, string)> {
    if Expect(s, "{").None? then None
    else if Expect(s[1..], "}").Some? then Some(([], s[2..]))
    else
      var it := ReadItem(s[1..]);
      if it.None? then None else
        var rest := ReadMore(it.value.1);
        if rest.None? then None else Some(([it.value.0] + rest.value.0, rest.value.1))
  }

  function ReadMessage(s: string): Option<(string, seq<Item>)> {
    var head := Expect(s, "\"message\":");
    if head.None? then None else
      var m := ReadQuoted(head.value);
      if m.None? then None else
        var tail := Expect(m.value.1, ",\"mdc\":");
        if tail.None? then None else
          var items := ReadContext(tail.value);
          if items.None? || items.value.1 != [] then None else Some((m.value.0, items.value.0))
  }

  // ----- round trips -----

  lemma ExpectPrefix(a: string, b: string)
    ensures Expect(a + b, a) == Some(b) && (a + b)[|a|..] == b
  {
  }

  lemma {:induction false} TextRoundTrip(s: string, t: string)
    ensures ReadText(Escape(s) + "\"" + t) == Some((s, t))
  {
    if s == [] {
      assert Escape(s) + "\"" + t == "\"" + t;
    } else {
      var rest := Escape(s[1..]) + "\"" + t;
      TextRoundTrip(s[1..], t);
      assert Escape(s) + "\"" + t == EscapeChar(s[0]) + rest;
      assert s == [s[0]] + s[1..];
      ReadEscaped(s[0], rest);
    }
  }

  lemma ReadEscaped(c: char, rest: string)
    ensures ReadText(EscapeChar(c) + rest) == Prepend(c, ReadText(rest))
  {
    var e := EscapeChar(c);
    assert (e + rest)[|e|..] == rest;
  }

  lemma QuotedRoundTrip(s: string, t: string)
    ensures ReadQuoted(Quoted(s) + t) == Some((s, t))
  {
    TextRoundTrip(s, t);
    assert Quoted(s) + t == "\"" + (Escape(s) + "\"" + t);
    ExpectPrefix("\"", Escape(s) + "\"" + t);
  }

  lemma FourParts(a: string, b: string, c: string, t: string)
    ensures a + b + c + t == a + (b + (c + t))
  {
  }

  lemma ItemRoundTrip(it: Item, t: string)
    ensures ReadItem(ItemText(it) + t) == Some((it, t))
  {
    var rest := Quoted(it.value) + t;
    QuotedRoundTrip(it.key, ":" + rest);
    QuotedRoundTrip(it.value, t);
    FourParts(Quoted(it.key), ":", Quoted(it.value), t);
    ExpectPrefix(":", rest);
  }

  lemma ReadMoreStep(it: Item, tail: string, rest: string)
    requires ReadItem(tail) == Some((it, rest)) && ReadMore(rest).Some?
    ensures ReadMore("," + tail) == Some(([it] + ReadMore(rest).value.0, ReadMore(rest).value.1))
  {
    var s := "," + tail;
    assert s[0] == ',' && !("}" <= s);
    ExpectPrefix(",", tail);
  }

  lemma {:induction false} MoreRoundTrip(items: seq<Item>, t: string)
    ensures ReadMore(MoreItems(items) + "}" + t) == Some((items, t))
    decreases |items|
  {
    if items == [] {
      ReadMoreEnd(t);
    } else {
      var rest := MoreItems(items[1..]) + "}" + t;
      MoreHead(items, t);
      ItemRoundTrip(items[0], rest);
      MoreRoundTrip(items[1..], t);
      ReadMoreStep(items[0], ItemText(items[0]) + rest, rest);
      assert items == [items[0]] + items[1..];
    }
  }

  lemma ReadMoreEnd(t: string)
    ensures ReadMore(MoreItems([]) + "}" + t) == Some(([], t))
  {
    assert MoreItems([]) + "}" + t == "}" + t;
    ExpectPrefix("}", t);
  }

  lemma MoreHead(items: seq<Item>, t: string)
    requires items != []
    ensures MoreItems(items) + "}" + t == "," + (ItemText(items[0]) + (MoreItems(items[1..]) + "}" + t))
  {
  }

  lemma ItemsRoundTrip(items: seq<Item>, tail: string)
    requires items != [] && tail == ItemText(items[0]) + (MoreItems(items[1..]) + "}" + [])
    ensures ReadContext("{" + tail) == Some((items, []))
  {
    ExpectPrefix("{", tail);
    ItemRoundTrip(items[0], MoreItems(items[1..]) + "}" + []);
    MoreRoundTrip(items[1..], []);
    assert items == [items[0]] + items[1..];
    assert tail[0] == '"' by { assert ItemText(items[0])[0] == '"'; }
  }

  lemma ContextRoundTrip(items: seq<Item>)
    ensures ReadContext(ContextText(items)) == Some((items, []))
  {
    if items == [] {
      assert ContextText(items) == "{" + "}";
      ExpectPrefix("{", "}");
      assert "}" <= "}" && ("{" + "}")[2..] == [];
    } else {
      var tail := ItemText(items[0]) + (MoreItems(items[1..]) + "}" + []);
      assert ContextText(items) == "{" + tail;
      ItemsRoundTrip(items, tail);
    }
  }

  /** Reading back what was printed gives the message and the items, in the order printed. */
  lemma MessageRoundTrip(message: string, items: seq<Item>)
    ensures ReadMessage(MessageText(message, items)) == Some((message, items))
  {
    var context := ContextText(items);
    var tail := ",\"mdc\":" + context;
    FourParts("\"message\":", Quoted(message), ",\"mdc\":", context);
    ExpectPrefix("\"message\":", Quoted(message) + tail);
    QuotedRoundTrip(message, tail);
    ExpectPrefix(",\"mdc\":", context);
    ContextRoundTrip(items);
  }

  // ----- maps in any iteration order -----

  /** items lists the entries of the map and misses none. */
  ghost predicate Walks(items: seq<Item>, m: map<string, string>) {
    && (forall i :: 0 <= i < |items| ==> items[i].key in m && m[items[i].key] == items[i].value)
    && (forall k :: k in m ==> exists i :: 0 <= i < |items| && items[i].key == k)
  }

  function ToMap(items: seq<Item>): map<string, string> {
    if items == [] then map[] else ToMap(items[1..])[items[0].key := items[0].value]
  }

  lemma {:induction false} ToMapOf(items: seq<Item>, m: map<string, string>)
    requires forall i :: 0 <= i < |items| ==> items[i].key in m && m[items[i].key] == items[i].value
    ensures forall k :: k in ToMap(items) <==> exists i :: 0 <= i < |items| && items[i].key == k
    ensures forall k :: k in ToMap(items) ==> k in m && ToMap(items)[k] == m[k]
  {
    if items != [] {
      var rest := items[1..];
      ToMapOf(rest, m);
      forall k ensures k in ToMap(items) <==> exists i :: 0 <= i < |items| && items[i].key == k {
        if k in ToMap(rest) {
          var i :| 0 <= i < |rest| && rest[i].key == k;
          assert items[i + 1].key == k;
        }
        if i :| 0 <= i < |items| && items[i].key == k {
          if i > 0 { assert rest[i - 1].key == k; }
        }
      }
    }
  }

  /** Whatever the iteration order, exactly the message and the map are recovered. */
  lemma ContextRecovered(message: string, m: map<string, string>, items: seq<Item>)
    requires Walks(items, m)
    ensures ReadMessage(MessageText(message, items)).Some?
    ensures ReadMessage(MessageText(message, items)).value.0 == message
    ensures ToMap(ReadMessage(MessageText(message, items)).value.1) == m
  {
    MessageRoundTrip(message, items);
    ToMapOf(items, m);
  }

  // ----- how far this is JSON -----

  /** The characters of a string in section 7 of RFC 8259, for the escapes that occur here. */
  predicate JsonChars(s: string) {
    s == [] ||
    (if s[0] == '\\' then |s| >= 2 && (s[1] == '"' || s[1] == '\\') && JsonChars(s[2..])
     else s[0] >= ' ' && s[0] != '"' && JsonChars(s[1..]))
  }

  /** Control characters are passed through: the text is a JSON string if and only if it has none. */
  lemma {:induction false} JsonIffNoControls(s: string)
    ensures JsonChars(Escape(s)) <==> forall i :: 0 <= i < |s| ==> s[i] >= ' '
  {
    if s != [] {
      var e, rest := EscapeChar(s[0]), Escape(s[1..]);
      JsonIffNoControls(s[1..]);
      assert (e + rest)[|e|..] == rest;
      assert forall i :: 0 < i < |s| ==> s[i] == s[1..][i - 1];
      assert JsonChars(e + rest) <==> s[0] >= ' ' && JsonChars(rest);
    }
  }
}
