/** The connection-string parser of db/common/connection_info.cc. */
module ConnectionString {

  import opened StringTrimming

  const WHITE: set<char> := {' ', '\t', '\r', '\n', 12 as char}

  // ----- The grammar --------------------------------------------------------------------------------

  datatype Parsed = Ok(driver: string, properties: map<string, string>)
                  | NoDriver | InvalidProperty | Unterminated | DuplicateKey

  datatype Text = Text(value: string, rest: string) | Open

  function IndexOf(s: string, c: char): (k: nat)
    ensures k <= |s| && (forall i :: 0 <= i < k ==> s[i] != c) && (k < |s| ==> s[k] == c)
  {
    if s == "" || s[0] == c then 0 else 1 + IndexOf(s[1..], c)
  }

  function Prefixed(v: string, t: Text): Text {
    if t.Open? then Open else Text(v + t.value, t.rest)
  }

  /** What follows an opening quote: a doubled quote stands for one, a single one closes. */
  function Quoted(s: string): (t: Text)
    ensures t.Text? ==> |t.rest| < |s|
  {
    if s == "" then Open
    else if s[0] != '\'' then Prefixed(s[..1], Quoted(s[1..]))
    else if |s| > 1 && s[1] == '\'' then Prefixed("'", Quoted(s[2..]))
    else Text("", s[1..])
  }

  function Value(s: string): (t: Text)
    ensures t.Text? ==> |t.rest| <= |s|
  {
    var t := s[FirstGood(WHITE, s)..];
    if t == "" then Text("", "")
    else if t[0] == '\'' then Quoted(t[1..])
    else Text(Trim(WHITE, t[..IndexOf(t, ';')]), t[IndexOf(t, ';')..])
  }

  /** After a value: white space, and one character of any kind. */
  function AfterValue(s: string): (r: string)
    ensures |r| <= |s|
  {
    var t := s[FirstGood(WHITE, s)..];
    if t == "" then "" else t[1..]
  }

  function Properties(driver: string, s: string, known: map<string, string>): Parsed
    decreases |s|
  {
    var n := IndexOf(s, '=');
    if s == "" then Ok(driver, known)
    else if n == |s| then InvalidProperty
    else
      var key, text := Trim(WHITE, s[..n]), Value(s[n + 1..]);
      if text.Open? then Unterminated
      else if key in known then DuplicateKey
      else Properties(driver, AfterValue(text.rest), known[key := text.value])
  }

  function Parse(s: string): Parsed {
    var n := IndexOf(s, ':');
    if n == |s| then NoDriver else Properties(s[..n], s[n + 1..], map[])
  }

  lemma QuotedStep(s: string, pos: nat)
    requires pos <= |s|
    ensures Quoted(s[pos..]) ==
      if pos == |s| then Open
      else if s[pos] != '\'' then Prefixed([s[pos]], Quoted(s[pos + 1..]))
      else if pos + 1 < |s| && s[pos + 1] == '\'' then Prefixed("'", Quoted(s[pos + 2..]))
      else Text("", s[pos + 1..])
  {
    var t := s[pos..];
    if pos < |s| {
      assert t[0] == s[pos] && t[..1] == [s[pos]] && t[1..] == s[pos + 1..];
      if pos + 1 < |s| {
        assert t[1] == s[pos + 1] && t[2..] == s[pos + 2..];
      }
    }
  }

  // ----- Init ---------------------------------------------------------------------------------------

  /** std::string::find from a position. */
  function Find(s: string, c: char, pos: nat): (k: nat)
    requires pos <= |s|
    ensures pos <= k <= |s|
  {
    pos + IndexOf(s[pos..], c)
  }

  /** The loop over a quoted value; a string that ends inside it has no position after it. */
  method ReadQuoted(s: string, start: nat) returns (closed: bool, value: string, pos: nat)
    requires start <= |s|
    ensures start <= pos <= |s|
    ensures Quoted(s[start..]) == if closed then Text(value, s[pos..]) else Open
  {
    hide Quoted;
    value, pos := "", start;
    assert Prefixed(value, Quoted(s[start..])) == Quoted(s[start..]);
    while true
      invariant start <= pos <= |s|
      invariant Quoted(s[start..]) == Prefixed(value, Quoted(s[pos..]))
      decreases |s| - pos
    {
      QuotedStep(s, pos);
      if pos >= |s| {
        return false, value, pos;
      }
      if s[pos] == '\'' {
        if pos + 1 < |s| && s[pos + 1] == '\'' {
          value := value + "'";
          pos := pos + 2;
        } else {
          pos := pos + 1;
          return true, value, pos;
        }
      } else {
        value := value + [s[pos]];
        pos := pos + 1;
      }
    }
  }

  /** The branches of Init for a value, from after its '='. */
  method ReadValue(s: string, start: nat) returns (closed: bool, value: string, pos: nat)
    requires start <= |s|
    ensures start <= pos <= |s|
    ensures Value(s[start..]) == if closed then Text(value, s[pos..]) else Open
  {
    hide Quoted, Trim, FirstGood, IndexOf;
    closed, value := true, "";
    pos := SkipWhite(WHITE, s, start);
    var t := s[pos..];
    assert s[start..][FirstGood(WHITE, s[start..])..] == t;
    if pos >= |s| {
      assert t == "" && s[pos..] == "";
    } else if s[pos] == '\'' {
      assert t[1..] == s[pos + 1..];
      closed, value, pos := ReadQuoted(s, pos + 1);
    } else {
      var n := Find(s, ';', pos);
      assert t[..n - pos] == s[pos..n] && t[n - pos..] == s[n..];
      var changed;
      changed, value := TrimString(WHITE, s[pos..n]);
      pos := n;
    }
  }

  /** The loop of Init after a value. */
  method SkipSeparator(s: string, start: nat) returns (pos: nat)
    requires start <= |s|
    ensures start <= pos <= |s| && s[pos..] == AfterValue(s[start..])
  {
    pos := start;
    while pos < |s|
      invariant start <= pos <= |s| && forall i :: start <= i < pos ==> s[i] in WHITE
    {
      var c := s[pos];
      pos := pos + 1;
      if c !in WHITE {
        FirstGoodIs(WHITE, s[start..], pos - 1 - start);
        assert s[start..][pos - 1 - start..] == s[pos - 1..];
        return;
      }
    }
    FirstGoodIs(WHITE, s[start..], pos - start);
  }

  lemma PropertiesStep(driver: string, s: string, pos: nat, known: map<string, string>)
    requires pos < |s|
    ensures Properties(driver, s[pos..], known) ==
      var n := Find(s, '=', pos);
      if n == |s| then InvalidProperty
      else
        var text := Value(s[n + 1..]);
        if text.Open? then Unterminated
        else if Trim(WHITE, s[pos..n]) in known then DuplicateKey
        else Properties(driver, AfterValue(text.rest), known[Trim(WHITE, s[pos..n]) := text.value])
  {
    hide Value, Trim, AfterValue, IndexOf;
    var n := Find(s, '=', pos);
    assert s[pos..][..n - pos] == s[pos..n];
    assert n < |s| ==> s[pos..][n - pos + 1..] == s[n + 1..];
  }

  class ConnectionInfo {
    const connectionString: string
    var driver: string
    var properties: map<string, string>

    constructor (s: string)
      ensures connectionString == s
    {
      connectionString := s;
      driver, properties := "", map[];
    }

    /** A failed check ends the program in the source; here it is the result. */
    method Init() returns (r: Parsed)
      modifies this
      ensures r == Parse(connectionString)
      ensures r.Ok? ==> driver == r.driver && properties == r.properties
    {
      hide Properties, Value, Trim, AfterValue, IndexOf;
      var s := connectionString;
      properties := map[];
      var pos := Find(s, ':', 0);
      assert s[0..] == s;
      if pos == |s| {
        return NoDriver;
      }
      driver := s[..pos];
      pos := pos + 1;
      while pos < |s|
        invariant pos <= |s| && Parse(s) == Properties(driver, s[pos..], properties)
        decreases |s| - pos
      {
        PropertiesStep(driver, s, pos, properties);
        var n := Find(s, '=', pos);
        if n == |s| {
          return InvalidProperty;
        }
        var changed, key := TrimString(WHITE, s[pos..n]);
        var closed, value, end := ReadValue(s, n + 1);
        if !closed {
          return Unterminated;
        }
        if key in properties {
          return DuplicateKey;
        }
        properties := properties[key := value];
        pos := SkipSeparator(s, end);
      }
      assert s[pos..] == "";
      NoProperties(driver, properties);
      return Ok(driver, properties);
    }
  }

  lemma NoProperties(driver: string, known: map<string, string>)
    ensures Properties(driver, "", known) == Ok(driver, known)
  {
  }
}
