/** Ways to write a connection string down, and that each is read back or refused as it should be. */
module ConnectionLayouts {

  import opened StringTrimming
  import opened ConnectionString

  // ----- Layouts ------------------------------------------------------------------------------------

  predicate IsBlank(c: char) {
    c == ' ' || c == '\t' || c == '\r' || c == '\n' || c == 12 as char
  }

  predicate Blank(s: string) {
    forall i :: 0 <= i < |s| ==> IsBlank(s[i])
  }

  /** No blank at either end. */
  predicate Neat(s: string) {
    s != "" ==> !IsBlank(s[0]) && !IsBlank(s[|s| - 1])
  }

  /** A property and one way to write it: quoted or bare, with blanks in four places and a separator behind it. */
  datatype Item = Item(key: string, value: string, quoted: bool,
                       before: string, after: string, lead: string, trail: string, separator: char)

  /** Any neat key without '='; any value when quoted, a neat one without ';' or a first quote when bare. */
  predicate Writable(i: Item) {
    && Neat(i.key) && '=' !in i.key && Blank(i.before) && Blank(i.after) && Blank(i.lead) && Blank(i.trail)
    && (!i.quoted ==> Neat(i.value) && ';' !in i.value && (i.value != "" ==> i.value[0] != '\''))
  }

  /** A bare value ends at ';'; behind a quoted one any character that is not blank will do, but for a quote that
      would double the closing one. */
  predicate Separable(i: Item) {
    !IsBlank(i.separator) && if i.quoted then i.separator != '\'' || i.trail != "" else i.separator == ';'
  }

  function Doubled(v: string): string {
    if v == "" then "" else (if v[0] == '\'' then "''" else v[..1]) + Doubled(v[1..])
  }

  function Body(i: Item): string {
    if i.quoted then "'" + Doubled(i.value) + "'" else i.value
  }

  function Name(i: Item): string {
    i.before + i.key + i.after
  }

  /** The last property may stand without a separator. */
  function WrittenLast(i: Item): string {
    Name(i) + "=" + (i.lead + Body(i) + i.trail)
  }

  function Written(i: Item): string {
    WrittenLast(i) + [i.separator]
  }

  function WrittenAll(items: seq<Item>): string {
    if items == [] then "" else Written(items[0]) + WrittenAll(items[1..])
  }

  function Map(items: seq<Item>, known: map<string, string>): map<string, string> {
    if items == [] then known else Map(items[1..], known[items[0].key := items[0].value])
  }

  lemma BlankIsWhite(s: string)
    ensures Blank(s) <==> AllWhite(WHITE, s)
    ensures Neat(s) <==> Trimmed(WHITE, s)
  {
    assert forall c :: IsBlank(c) <==> c in WHITE;
  }

  lemma {:induction false} IndexOfIs(s: string, c: char, k: nat)
    requires k <= |s| && (forall i :: 0 <= i < k ==> s[i] != c) && (k < |s| ==> s[k] == c)
    ensures IndexOf(s, c) == k
    decreases |s|
  {
    if k > 0 {
      IndexOfIs(s[1..], c, k - 1);
    }
  }

  // ----- Values -------------------------------------------------------------------------------------

  lemma QuotedCloses(rest: string)
    requires rest != "" ==> rest[0] != '\''
    ensures Quoted("'" + rest) == Text("", rest)
  {
    hide Quoted;
    var s := "'" + rest;
    QuotedStep(s, 0);
    assert s[0..] == s && s[1..] == rest;
  }

  lemma QuotedPair(more: string)
    ensures Quoted("''" + more) == Prefixed("'", Quoted(more))
  {
    hide Quoted;
    var s := "''" + more;
    QuotedStep(s, 0);
    assert s[0..] == s && s[2..] == more;
  }

  lemma QuotedPlain(c: char, more: string)
    requires c != '\''
    ensures Quoted([c] + more) == Prefixed([c], Quoted(more))
  {
    hide Quoted;
    var s := [c] + more;
    QuotedStep(s, 0);
    assert s[0..] == s && s[1..] == more;
  }

  lemma {:induction false} QuotedDoubled(v: string, rest: string)
    requires rest != "" ==> rest[0] != '\''
    ensures Quoted(Doubled(v) + "'" + rest) == Text(v, rest)
    decreases |v|
  {
    hide Quoted;
    if v == "" {
      QuotedCloses(rest);
      assert Doubled(v) + "'" + rest == "'" + rest;
    } else {
      QuotedDoubled(v[1..], rest);
      var more := Doubled(v[1..]) + "'" + rest;
      assert v == [v[0]] + v[1..] && v[..1] == [v[0]];
      if v[0] == '\'' {
        QuotedPair(more);
        assert Doubled(v) + "'" + rest == "''" + more;
      } else {
        QuotedPlain(v[0], more);
        assert Doubled(v) + "'" + rest == [v[0]] + more;
      }
    }
  }

  lemma {:induction false} QuotedOpen(v: string)
    ensures Quoted(Doubled(v)) == Open
    decreases |v|
  {
    hide Quoted;
    if v == "" {
      QuotedStep("", 0);
      assert ""[0..] == "";
    } else {
      QuotedOpen(v[1..]);
      var more := Doubled(v[1..]);
      if v[0] == '\'' {
        QuotedPair(more);
      } else {
        QuotedPlain(v[0], more);
        assert v[..1] == [v[0]];
      }
    }
  }

  lemma AfterTrail(d: string, c: char, rest: string)
    requires AllWhite(WHITE, d) && c !in WHITE
    ensures AfterValue(d + [c] + rest) == rest
  {
    hide FirstGood;
    assert d + [c] + rest == d + ([c] + rest);
    SkipsWhite(WHITE, d, [c] + rest);
  }

  lemma AfterNothing(d: string)
    requires AllWhite(WHITE, d)
    ensures AfterValue(d) == ""
  {
    hide FirstGood;
    FirstGoodIs(WHITE, d, |d|);
  }

  /** A quoted value, before anything that does not start with a quote. */
  lemma ValueOfQuoted(lead: string, v: string, end: string)
    requires AllWhite(WHITE, lead) && (end != "" ==> end[0] != '\'')
    ensures Value(lead + ("'" + Doubled(v) + "'") + end) == Text(v, end)
  {
    hide FirstGood, Quoted, IndexOf, Trim, Doubled;
    var t := "'" + (Doubled(v) + "'" + end);
    assert lead + ("'" + Doubled(v) + "'") + end == lead + t;
    SkipsWhite(WHITE, lead, t);
    assert t[1..] == Doubled(v) + "'" + end;
    QuotedDoubled(v, end);
  }

  lemma ValueOfOpenQuote(lead: string, v: string)
    requires AllWhite(WHITE, lead)
    ensures Value(lead + ("'" + Doubled(v))) == Open
  {
    hide FirstGood, Quoted, IndexOf, Trim, Doubled;
    var t := "'" + Doubled(v);
    SkipsWhite(WHITE, lead, t);
    assert t[1..] == Doubled(v);
    QuotedOpen(v);
  }

  /** A bare value ends at the next ';' or at the end. */
  lemma ValueOfBare(lead: string, v: string, trail: string, end: string)
    requires AllWhite(WHITE, lead) && AllWhite(WHITE, trail) && (end != "" ==> end[0] == ';')
    requires Trimmed(WHITE, v) && ';' !in v && (v != "" ==> v[0] != '\'')
    ensures Value(lead + v + trail + end) == Text(v, end)
  {
    hide FirstGood, IndexOf, Trim, Quoted;
    var inner := if v == "" then "" else v + trail;
    var front := if v == "" then lead + trail else lead;
    var t := inner + end;
    assert lead + v + trail + end == front + t;
    if t == "" {
      assert front + t == front;
      FirstGoodIs(WHITE, front, |front|);
    } else {
      assert t[0] == if v == "" then ';' else v[0];
      SkipsWhite(WHITE, front, t);
      BareEnds(v, inner, trail, end);
    }
  }

  lemma BareEnds(v: string, inner: string, trail: string, end: string)
    requires AllWhite(WHITE, trail) && (end != "" ==> end[0] == ';') && Trimmed(WHITE, v) && ';' !in v
    requires inner == if v == "" then "" else v + trail
    ensures var t := inner + end; var n := IndexOf(t, ';'); Trim(WHITE, t[..n]) == v && t[n..] == end
  {
    hide IndexOf, Trim;
    var t := inner + end;
    forall i | 0 <= i < |inner|
      ensures t[i] != ';'
    {
      assert t[i] == if i < |v| then v[i] else trail[i - |v|];
    }
    IndexOfIs(t, ';', |inner|);
    assert t[..|inner|] == inner && t[|inner|..] == end;
    TrimUndoesPadding(WHITE, "", v, if v == "" then "" else trail);
    assert "" + v + (if v == "" then "" else trail) == inner;
  }

  lemma ReadsBody(i: Item, rest: string)
    requires Writable(i) && Separable(i)
    ensures var t := Value(i.lead + Body(i) + i.trail + [i.separator] + rest);
      t.Text? && t.value == i.value && AfterValue(t.rest) == rest
  {
    hide Value, AfterValue, Doubled;
    ItemIsWhite(i);
    var end := i.trail + [i.separator] + rest;
    if i.quoted {
      assert end[0] != '\'' by {
        assert i.trail != "" ==> end[0] == i.trail[0] && IsBlank(i.trail[0]);
      }
      ValueOfQuoted(i.lead, i.value, end);
      assert i.lead + Body(i) + i.trail + [i.separator] + rest == i.lead + Body(i) + end;
      AfterTrail(i.trail, i.separator, rest);
    } else {
      ValueOfBare(i.lead, i.value, i.trail, ";" + rest);
      assert i.lead + Body(i) + i.trail + [i.separator] + rest == i.lead + i.value + i.trail + (";" + rest);
      AfterTrail("", ';', rest);
      assert "" + [';'] + rest == ";" + rest;
    }
  }

  lemma ReadsLastBody(i: Item)
    requires Writable(i)
    ensures var t := Value(i.lead + Body(i) + i.trail);
      t.Text? && t.value == i.value && AfterValue(t.rest) == ""
  {
    hide Value, AfterValue, Doubled;
    ItemIsWhite(i);
    if i.quoted {
      assert i.trail != "" ==> IsBlank(i.trail[0]);
      ValueOfQuoted(i.lead, i.value, i.trail);
      AfterNothing(i.trail);
    } else {
      ValueOfBare(i.lead, i.value, i.trail, "");
      assert i.lead + Body(i) + i.trail == i.lead + i.value + i.trail + "";
      AfterNothing("");
    }
  }

  lemma ItemIsWhite(i: Item)
    requires Writable(i)
    ensures Trimmed(WHITE, i.key) && AllWhite(WHITE, i.before) && AllWhite(WHITE, i.after)
    ensures AllWhite(WHITE, i.lead) && AllWhite(WHITE, i.trail) && AllWhite(WHITE, "")
    ensures !i.quoted ==> Trimmed(WHITE, i.value)
    ensures Separable(i) ==> i.separator !in WHITE
  {
    BlankIsWhite(i.key);
    BlankIsWhite(i.value);
    BlankIsWhite(i.before);
    BlankIsWhite(i.after);
    BlankIsWhite(i.lead);
    BlankIsWhite(i.trail);
  }

  // ----- Properties ---------------------------------------------------------------------------------

  /** Whatever follows '=' decides what becomes of the key. */
  lemma ReadsName(driver: string, i: Item, tail: string, known: map<string, string>)
    requires Writable(i)
    ensures Properties(driver, Name(i) + "=" + tail, known) ==
      var t := Value(tail);
      if t.Open? then Unterminated
      else if i.key in known then DuplicateKey
      else Properties(driver, AfterValue(t.rest), known[i.key := t.value])
  {
    hide IndexOf, Trim, Value, AfterValue;
    ItemIsWhite(i);
    var s := Name(i) + "=" + tail;
    NameHasNoEquals(i);
    assert forall k :: 0 <= k < |Name(i)| ==> s[k] == Name(i)[k];
    IndexOfIs(s, '=', |Name(i)|);
    assert s[..|Name(i)|] == Name(i) && s[|Name(i)| + 1..] == tail;
    TrimUndoesPadding(WHITE, i.before, i.key, i.after);
  }

  lemma NameHasNoEquals(i: Item)
    requires Writable(i)
    ensures forall k :: 0 <= k < |Name(i)| ==> Name(i)[k] != '='
  {
    forall k | 0 <= k < |Name(i)|
      ensures Name(i)[k] != '='
    {
      var c := Name(i)[k];
      assert c in i.before || c in i.key || c in i.after;
    }
  }

  lemma ReadsItem(driver: string, i: Item, rest: string, known: map<string, string>)
    requires Writable(i) && Separable(i)
    ensures Properties(driver, Written(i) + rest, known) ==
      if i.key in known then DuplicateKey else Properties(driver, rest, known[i.key := i.value])
  {
    hide Properties, Value, AfterValue, Name, Body;
    var tail := i.lead + Body(i) + i.trail + [i.separator] + rest;
    assert Written(i) + rest == Name(i) + "=" + tail;
    ReadsName(driver, i, tail, known);
    ReadsBody(i, rest);
  }

  lemma ReadsLast(driver: string, i: Item, known: map<string, string>)
    requires Writable(i) && i.key !in known
    ensures Properties(driver, WrittenLast(i), known) == Ok(driver, known[i.key := i.value])
  {
    hide Properties, Value, AfterValue, Name, Body;
    ReadsName(driver, i, i.lead + Body(i) + i.trail, known);
    ReadsLastBody(i);
    NoProperties(driver, known[i.key := i.value]);
  }

  predicate DistinctKeys(items: seq<Item>) {
    forall i, j :: 0 <= i < j < |items| ==> items[i].key != items[j].key
  }

  predicate Fresh(items: seq<Item>, known: map<string, string>) {
    forall i :: 0 <= i < |items| ==> items[i].key !in known
  }

  predicate AllWritable(items: seq<Item>) {
    forall i :: 0 <= i < |items| ==> Writable(items[i]) && Separable(items[i])
  }

  lemma {:induction false} ReadsItems(driver: string, items: seq<Item>, rest: string, known: map<string, string>)
    requires AllWritable(items) && Fresh(items, known) && DistinctKeys(items)
    ensures Properties(driver, WrittenAll(items) + rest, known) == Properties(driver, rest, Map(items, known))
    decreases |items|
  {
    hide Writable, Separable, Written, Properties;
    if items == [] {
      assert WrittenAll(items) + rest == rest;
    } else {
      ReadsItem(driver, items[0], WrittenAll(items[1..]) + rest, known);
      assert WrittenAll(items) + rest == Written(items[0]) + (WrittenAll(items[1..]) + rest);
      ReadsItems(driver, items[1..], rest, known[items[0].key := items[0].value]);
    }
  }

  lemma {:induction false} MapHolds(items: seq<Item>, known: map<string, string>)
    requires DistinctKeys(items) && forall i :: 0 <= i < |items| ==> items[i].key !in known
    ensures Map(items, known).Keys == known.Keys + set i | 0 <= i < |items| :: items[i].key
    ensures forall k :: k in known ==> Map(items, known)[k] == known[k]
    ensures forall i :: 0 <= i < |items| ==> Map(items, known)[items[i].key] == items[i].value
    decreases |items|
  {
    if items != [] {
      var more := known[items[0].key := items[0].value];
      MapHolds(items[1..], more);
      assert items == [items[0]] + items[1..];
      forall i | 0 <= i < |items|
        ensures items[i].key in Map(items, known) && Map(items, known)[items[i].key] == items[i].value
      {
        if i > 0 {
          assert items[i] == items[1..][i - 1];
        }
      }
    }
  }

  lemma {:induction false} RefusesItems(driver: string, items: seq<Item>, rest: string, known: map<string, string>)
    requires AllWritable(items) && (!DistinctKeys(items) || !Fresh(items, known))
    ensures Properties(driver, WrittenAll(items) + rest, known) == DuplicateKey
    decreases |items|
  {
    hide Writable, Separable, Written, Properties;
    ReadsItem(driver, items[0], WrittenAll(items[1..]) + rest, known);
    assert WrittenAll(items) + rest == Written(items[0]) + (WrittenAll(items[1..]) + rest);
    if items[0].key !in known {
      var more := known[items[0].key := items[0].value];
      LaterClash(items, known, more);
      RefusesItems(driver, items[1..], rest, more);
    }
  }

  lemma LaterClash(items: seq<Item>, known: map<string, string>, more: map<string, string>)
    requires items != [] && items[0].key !in known && more == known[items[0].key := items[0].value]
    requires !DistinctKeys(items) || !Fresh(items, known)
    ensures !DistinctKeys(items[1..]) || !Fresh(items[1..], more)
  {
    assert forall i :: 0 < i < |items| ==> items[i] == items[1..][i - 1];
  }

  // ----- Whole strings ------------------------------------------------------------------------------

  lemma SplitsDriver(driver: string, rest: string)
    requires ':' !in driver
    ensures Parse(driver + ":" + rest) == Properties(driver, rest, map[])
  {
    hide IndexOf, Properties;
    var s := driver + ":" + rest;
    assert forall i :: 0 <= i < |driver| ==> s[i] == driver[i];
    IndexOfIs(s, ':', |driver|);
    assert s[..|driver|] == driver && s[|driver| + 1..] == rest;
  }

  lemma SplitsItems(driver: string, items: seq<Item>, rest: string)
    requires ':' !in driver && DistinctKeys(items) && AllWritable(items)
    ensures Parse(driver + ":" + (WrittenAll(items) + rest)) == Properties(driver, rest, Map(items, map[]))
  {
    hide Parse, AllWritable, WrittenAll, Properties, DistinctKeys;
    SplitsDriver(driver, WrittenAll(items) + rest);
    ReadsItems(driver, items, rest, map[]);
  }

  /** Any driver without ':' and any properties with distinct keys, however they are laid out, are read back. */
  lemma RoundTrip(driver: string, items: seq<Item>)
    requires ':' !in driver && DistinctKeys(items) && AllWritable(items)
    ensures var r := Parse(driver + ":" + WrittenAll(items));
      && r.Ok? && r.driver == driver
      && r.properties.Keys == (set i | 0 <= i < |items| :: items[i].key)
      && forall i :: 0 <= i < |items| ==> r.properties[items[i].key] == items[i].value
  {
    hide Parse, AllWritable, WrittenAll, Properties, Map, DistinctKeys;
    SplitsItems(driver, items, "");
    assert WrittenAll(items) + "" == WrittenAll(items);
    NoProperties(driver, Map(items, map[]));
    MapHolds(items, map[]);
  }

  /** The last property may stand without a separator, quoted or bare, with any blanks behind it. */
  lemma RoundTripOpen(driver: string, items: seq<Item>, last: Item)
    requires ':' !in driver && DistinctKeys(items) && AllWritable(items) && Writable(last)
    requires forall i :: 0 <= i < |items| ==> items[i].key != last.key
    ensures var r := Parse(driver + ":" + (WrittenAll(items) + WrittenLast(last)));
      && r.Ok? && r.driver == driver
      && r.properties.Keys == (set i | 0 <= i < |items| :: items[i].key) + {last.key}
      && r.properties[last.key] == last.value
      && forall i :: 0 <= i < |items| ==> r.properties[items[i].key] == items[i].value
  {
    hide Parse, AllWritable, WrittenAll, WrittenLast, Properties, Map, DistinctKeys, Writable;
    SplitsItems(driver, items, WrittenLast(last));
    MapHolds(items, map[]);
    ReadsLast(driver, last, Map(items, map[]));
  }

  /** A repeated key is refused, wherever its two properties stand and whatever follows. */
  lemma RepeatedKeyIsRefused(driver: string, items: seq<Item>, rest: string)
    requires ':' !in driver && !DistinctKeys(items) && AllWritable(items)
    ensures Parse(driver + ":" + (WrittenAll(items) + rest)) == DuplicateKey
  {
    hide Parse, AllWritable, WrittenAll, Properties, DistinctKeys;
    SplitsDriver(driver, WrittenAll(items) + rest);
    RefusesItems(driver, items, rest, map[]);
  }

  /** Text behind the properties that has no '=' is refused, blanks included. */
  lemma StrayTextIsRefused(driver: string, items: seq<Item>, stray: string)
    requires ':' !in driver && DistinctKeys(items) && AllWritable(items) && stray != "" && '=' !in stray
    ensures Parse(driver + ":" + (WrittenAll(items) + stray)) == InvalidProperty
  {
    hide Parse, AllWritable, WrittenAll, Map, DistinctKeys, IndexOf;
    SplitsItems(driver, items, stray);
    IndexOfIs(stray, '=', |stray|);
  }

  /** A quoted value that is not closed is refused. */
  lemma OpenQuoteIsRefused(driver: string, items: seq<Item>, last: Item)
    requires ':' !in driver && DistinctKeys(items) && AllWritable(items) && Writable(last)
    ensures Parse(driver + ":" + (WrittenAll(items) + (Name(last) + "=" + (last.lead + ("'" + Doubled(last.value)))))) ==
            Unterminated
  {
    hide Parse, AllWritable, WrittenAll, Properties, Map, DistinctKeys, Value, AfterValue, Name, Doubled;
    ItemIsWhite(last);
    ValueOfOpenQuote(last.lead, last.value);
    SplitsItems(driver, items, Name(last) + "=" + (last.lead + ("'" + Doubled(last.value))));
    ReadsName(driver, last, last.lead + ("'" + Doubled(last.value)), Map(items, map[]));
  }

  /** A string is refused for want of a driver exactly when it has no ':'. */
  lemma NoDriverIsRefused(s: string)
    ensures Parse(s) == NoDriver <==> ':' !in s
  {
    hide IndexOf, Value, Trim, AfterValue;
    var n := IndexOf(s, ':');
    if n < |s| {
      NeverNoDriver(s[..n], s[n + 1..], map[]);
    }
  }

  lemma {:induction false} NeverNoDriver(driver: string, s: string, known: map<string, string>)
    ensures Properties(driver, s, known) != NoDriver
    decreases |s|
  {
    hide IndexOf, Value, Trim, AfterValue;
    var n := IndexOf(s, '=');
    if s != "" && n < |s| {
      var key, text := Trim(WHITE, s[..n]), Value(s[n + 1..]);
      if text.Text? && key !in known {
        NeverNoDriver(driver, AfterValue(text.rest), known[key := text.value]);
      }
    }
  }
}
