/**
 * The configuration store: a string-keyed table of values, the `.properties`
 * text format it is read from and written to, and the edits made on a loaded
 * store. Nested tables are dictionaries stored as values.
 */
module Configs {
  import opened Common

  /** What a configuration entry can hold. */
  datatype Value =
    | Null
    | Bool(b: bool)
    | Int(i: int)
    | Str(s: string)
    | Table(entries: map<string, Value>)
    | Other(text: string)  // any other object, by the text its `ToString` gives

  /** The name a nested table prints as. */
  const TABLE_TYPE_NAME: string := "System.Collections.Generic.Dictionary`2[System.String,System.Object]"

  /** How string interpolation writes a value: null is empty and booleans are capitalised. */
  function Format(v: Value): (s: string)
    ensures v.Null? ==> s == ""
    ensures v.Bool? ==> s == (if v.b then "True" else "False")
    ensures v.Str? ==> s == v.s
  {
    match v
    case Null => ""
    case Bool(b) => if b then "True" else "False"
    case Int(i) => IntToString(i)
    case Str(s) => s
    case Table(_) => TABLE_TYPE_NAME
    case Other(t) => t
  }

  // ---------------------------------------------------------------------------
  // Reading the properties format

  /** A line that contributes nothing: empty, a comment, or without `=`; the prefixes are tested ordinally. */
  predicate IsIgnored(line: string) {
    || line == []
    || StartsWith(line, ";") || StartsWith(line, "#") || StartsWith(line, "'")
    || '=' !in line
  }

  /** A value wrapped in a pair of double or single quotes, tested ordinally. */
  predicate IsQuoted(raw: string) {
    || (StartsWith(raw, "\"") && EndsWith(raw, "\""))
    || (StartsWith(raw, "'") && EndsWith(raw, "'"))
  }

  /**
   * Strips one pair of enclosing quotes; a lone quote character passes both
   * the start and the end test and leaves a negative length to cut.
   */
  function Unquote(raw: string): (r: Result<string>)
    ensures !IsQuoted(raw) ==> r == Ok(raw)
    ensures IsQuoted(raw) && |raw| >= 2 ==> r == Ok(raw[1..|raw| - 1])
    ensures r.Err? <==> IsQuoted(raw) && |raw| == 1
  {
    if IsQuoted(raw) then
      if |raw| < 2 then Err(ArgumentOutOfRange("length")) else Ok(raw[1..|raw| - 1])
    else Ok(raw)
  }

  /** Exactly the outer pair of quotes is removed, whatever the text inside. */
  lemma UnquoteOuterPair(s: string, quote: char)
    requires quote == '"' || quote == '\''
    ensures Unquote([quote] + s + [quote]) == Ok(s)
  {
    var raw := [quote] + s + [quote];
    assert raw[..1] == [quote] && raw[|raw| - 1..] == [quote];
    assert raw[1..|raw| - 1] == s;
  }

  /** The switch a keyword spells: `on`, `yes` and `true`, or `off`, `no` and `false`. */
  function Keyword(text: string): Option<bool> {
    if text == "on" || text == "yes" || text == "true" then Some(true)
    else if text == "off" || text == "no" || text == "false" then Some(false)
    else None
  }

  /** The typed value of an unquoted text: a switch keyword, a 32-bit integer, or the text itself. */
  function Classify(text: string): Value {
    match Keyword(text)
    case Some(b) => Bool(b)
    case None =>
      match ParseInt32(text)
      case Some(n) => Int(n)
      case None => Str(text)
  }

  /**
   * The keywords come first, then the integers; any other text is kept as
   * it stands.
   */
  lemma ClassifyCases(text: string)
    ensures text == "on" || text == "yes" || text == "true" ==> Classify(text) == Bool(true)
    ensures text == "off" || text == "no" || text == "false" ==> Classify(text) == Bool(false)
    ensures Classify(text).Int? ==> ParseInt32(text) == Some(Classify(text).i)
    ensures Classify(text).Str? ==> Classify(text).s == text && ParseInt32(text).None? && Keyword(text).None?
    ensures Classify(text).Bool? || Classify(text).Int? || Classify(text).Str?
  {
  }

  /** The value of the text after the `=`: trimmed, unquoted and classified. */
  function ReadValue(text: string): Result<Value> {
    match Unquote(Trim(text))
    case Ok(s) => Ok(Classify(s))
    case Err(e) => Err(e)
  }

  /** What one line contributes: nothing, an entry, or the error that ends the read. */
  datatype LineEntry = Ignored | Entry(key: string, value: Value) | Broken(error: Error)

  function ReadLine(line: string): (r: LineEntry)
    ensures r.Ignored? <==> IsIgnored(line)
    ensures !r.Ignored? ==>
      var eq := IndexOf(line, '=').value;
      && (r.Entry? ==> r.key == Trim(line[..eq]) && ReadValue(line[eq + 1..]) == Ok(r.value))
      && (r.Broken? ==> ReadValue(line[eq + 1..]) == Err(r.error))
  {
    if IsIgnored(line) then Ignored
    else
      var eq := IndexOf(line, '=').value;
      var value := ReadValue(line[eq + 1..]);
      if value.Ok? then Entry(Trim(line[..eq]), value.value) else Broken(value.error)
  }

  /** What each line of `lines` contributes, in order. */
  function Entries(lines: seq<string>): (entries: seq<LineEntry>)
    ensures |entries| == |lines|
    ensures forall i :: 0 <= i < |lines| ==> entries[i] == ReadLine(lines[i])
  {
    seq(|lines|, i requires 0 <= i < |lines| => ReadLine(lines[i]))
  }

  /**
   * The table that `entries` build on top of `acc`, in order: a broken value
   * or a key already present ends the read with an error.
   */
  function Absorb(entries: seq<LineEntry>, acc: map<string, Value>): Result<map<string, Value>>
    decreases |entries|
  {
    if entries == [] then Ok(acc)
    else match entries[0]
      case Ignored => Absorb(entries[1..], acc)
      case Broken(e) => Err(e)
      case Entry(k, v) => if k in acc then Err(DuplicateKey(k)) else Absorb(entries[1..], acc[k := v])
  }

  /** One more entry of `entries`, from position `i`. */
  lemma AbsorbUnfold(entries: seq<LineEntry>, i: nat, acc: map<string, Value>)
    requires i < |entries|
    ensures var e := entries[i];
      Absorb(entries[i..], acc) ==
        if e.Ignored? then Absorb(entries[i + 1..], acc)
        else if e.Broken? then Err(e.error)
        else if e.key in acc then Err(DuplicateKey(e.key))
        else Absorb(entries[i + 1..], acc[e.key := e.value])
  {
    assert entries[i..][0] == entries[i] && entries[i..][1..] == entries[i + 1..];
  }

  /** Parses a properties text: one entry per kept line, split at newlines. */
  method ReadProperties(content: string) returns (r: Result<map<string, Value>>)
    ensures r == Absorb(Entries(Split(content, '\n')), map[])
  {
    var lines := Split(content, '\n');
    ghost var entries := Entries(lines);
    var config := map[];
    for i := 0 to |lines|
      invariant Absorb(entries[i..], config) == Absorb(entries, map[])
    {
      AbsorbUnfold(entries, i, config);
      var entry := ReadLine(lines[i]);
      match entry {
        case Ignored =>
        case Broken(e) =>
          return Err(e);
        case Entry(k, v) =>
          if k in config {
            return Err(DuplicateKey(k));
          }
          config := config[k := v];
      }
    }
    assert entries[|lines|..] == [];
    r := Ok(config);
  }

  /**
   * A successful read holds every key that an entry names, each once: two
   * entries with the same key, or a key already present, make the read fail.
   */
  lemma {:induction false} ReadKeysDistinct(entries: seq<LineEntry>, acc: map<string, Value>)
    requires Absorb(entries, acc).Ok?
    ensures forall i :: 0 <= i < |entries| && entries[i].Entry? ==>
      entries[i].key !in acc && entries[i].key in Absorb(entries, acc).value
    ensures forall i, j :: 0 <= i < j < |entries| && entries[i].Entry? && entries[j].Entry? ==>
      entries[i].key != entries[j].key
    decreases |entries|
  {
    if entries != [] {
      var rest := entries[1..];
      var acc' := if entries[0].Entry? then acc[entries[0].key := entries[0].value] else acc;
      assert Absorb(entries, acc) == Absorb(rest, acc');
      ReadKeysDistinct(rest, acc');
      forall i | 1 <= i < |entries| && entries[i].Entry?
        ensures entries[i].key !in acc' && entries[i].key in Absorb(entries, acc).value
      {
        assert entries[i] == rest[i - 1];
      }
      if entries[0].Entry? {
        KeptInResult(rest, acc', entries[0].key);
      }
    }
  }

  /** A key present before the read is still present after a successful read. */
  lemma {:induction false} KeptInResult(entries: seq<LineEntry>, acc: map<string, Value>, k: string)
    requires Absorb(entries, acc).Ok? && k in acc
    ensures k in Absorb(entries, acc).value
    decreases |entries|
  {
    if entries != [] {
      match entries[0] {
        case Ignored => KeptInResult(entries[1..], acc, k);
        case Entry(k', v) => KeptInResult(entries[1..], acc[k' := v], k);
      }
    }
  }

  // ---------------------------------------------------------------------------
  // Writing the properties format

  /**
   * Writes one `key=value` line, newline-terminated, per entry; `order` is
   * the order in which the dictionary happened to be enumerated.
   */
  method WriteProperties(config: map<string, Value>) returns (text: string, ghost order: seq<string>)
    ensures EnumeratesOnce(order, config.Keys)
    ensures text == Terminated(Lines(config, order, Format))
  {
    text, order := "", [];
    var remaining := config.Keys;
    while remaining != {}
      invariant remaining <= config.Keys
      invariant forall x :: x in config <==> x in remaining || x in order
      invariant forall x :: x in remaining ==> x !in order
      invariant |order| + |remaining| == |config|
      invariant forall i, j :: 0 <= i < j < |order| ==> order[i] != order[j]
      invariant text == Terminated(Lines(config, order, Format))
      decreases remaining
    {
      NonEmptyHasString(remaining);
      var key :| key in remaining;
      TerminatedSnoc(Lines(config, order, Format), Line(config, key, Format));
      assert Lines(config, order + [key], Format) == Lines(config, order, Format) + [Line(config, key, Format)];
      text := text + (key + "=" + Format(config[key])) + "\n";
      order := order + [key];
      remaining := remaining - {key};
    }
  }

  /** A key that reads back as itself from a written line. */
  predicate PlainKey(key: string) {
    && Trim(key) == key
    && '=' !in key && '\n' !in key
    && !StartsWith(key, ";") && !StartsWith(key, "#") && !StartsWith(key, "'")
  }

  /** A value whose written text reads back as the value itself. */
  predicate ReadsBack(v: Value) {
    '\n' !in Format(v) && ReadValue(Format(v)) == Ok(v)
  }

  /** A text with nothing to trim and no quotes to strip is classified as it stands. */
  lemma ReadPlain(s: string)
    requires Trim(s) == s && !IsQuoted(s)
    ensures ReadValue(s) == Ok(Classify(s))
  {
  }

  /** A text that starts with a minus sign or a digit is no switch keyword. */
  lemma KeywordNumber(s: string)
    requires |s| > 0 && (s[0] == '-' || '0' <= s[0] <= '9')
    ensures Keyword(s) == None
  {
    assert s[0] != 'o' && s[0] != 'y' && s[0] != 't' && s[0] != 'n' && s[0] != 'f';
  }

  /**
   * An optionally negative run of digits has nothing to trim, no quotes and
   * no newline, and is no switch keyword.
   */
  lemma NumberIsPlain(s: string)
    requires SignedDigits(s)
    ensures Trim(s) == s && !IsQuoted(s) && '\n' !in s && Keyword(s).None?
  {
    KeywordNumber(s);
    assert s[..1] == [s[0]];
    TrimKeeps(s);
  }

  /** Such a text that parses reads back as the integer it spells. */
  lemma NumberReadsBack(s: string, n: int)
    requires SignedDigits(s)
    requires ParseInt32(s) == Some(n)
    ensures '\n' !in s && ReadValue(s) == Ok(Int(n))
  {
    NumberIsPlain(s);
    ReadPlain(s);
  }

  /** A 32-bit integer reads back as itself. */
  lemma IntReadsBack(i: int)
    requires IsInt32(i)
    ensures ReadsBack(Int(i))
  {
    IntToStringShape(i);
    ParseIntToString(i);
    NumberReadsBack(IntToString(i), i);
  }

  /**
   * A text between two letters, the first a capital, is no keyword and no
   * number, so it reads back as the text itself.
   */
  lemma CapitalisedReadsAsText(s: string)
    requires |s| > 0 && 'A' <= s[0] <= 'Z' && 'a' <= s[|s| - 1] <= 'z'
    ensures ReadValue(s) == Ok(Str(s))
  {
    CapitalisedIsNoKeyword(s);
    CapitalisedIsNoNumber(s);
    assert !IsQuoted(s) by {
      assert s[..1] == [s[0]];
    }
    TrimKeeps(s);
    ReadPlain(s);
  }

  /** Every switch keyword is in lower case. */
  lemma CapitalisedIsNoKeyword(s: string)
    requires |s| > 0 && 'A' <= s[0] <= 'Z'
    ensures Keyword(s).None?
  {
    assert s[0] != 'o' && s[0] != 'y' && s[0] != 't' && s[0] != 'n' && s[0] != 'f';
  }

  /** A number starts with a sign or a digit. */
  lemma CapitalisedIsNoNumber(s: string)
    requires |s| > 0 && 'A' <= s[0] <= 'Z'
    ensures ParseSigned(s).None?
  {
    assert s[0] != '-' && s[0] != '+' && !IsDigit(s[0]);
  }

  /**
   * A boolean is written capitalised, which none of the switch keywords is,
   * so it reads back as the text "True" or "False" rather than as a boolean.
   */
  lemma BoolReadsBackAsText(b: bool)
    ensures ReadValue(Format(Bool(b))) == Ok(Str(if b then "True" else "False"))
    ensures !ReadsBack(Bool(b))
  {
    var s := if b then "True" else "False";
    assert Format(Bool(b)) == s;
    CapitalisedReadsAsText(s);
  }

  /** The line written for a plain key and a value that reads back is read as that entry. */
  lemma ReadWrittenLine(config: map<string, Value>, key: string)
    requires key in config && PlainKey(key) && ReadsBack(config[key])
    ensures ReadLine(Line(config, key, Format)) == Entry(key, config[key])
  {
    var line := Line(config, key, Format);
    var text := Format(config[key]);
    assert line == key + "=" + text;
    assert line[|key|] == '=' && line[..|key|] == key;
    IndexOfIs(line, '=', |key|);
    assert line[|key| + 1..] == text;
    assert !IsIgnored(line) by {
      assert '=' in line;
      if key == [] {
        assert line[..1] == "=";
      } else {
        assert line[..1] == key[..1];
      }
    }
  }

  /** The entries read from the lines written for `order`. */
  function Written(config: map<string, Value>, order: seq<string>): (entries: seq<LineEntry>)
    requires forall i :: 0 <= i < |order| ==> order[i] in config
    ensures |entries| == |order|
    ensures forall i :: 0 <= i < |order| ==> entries[i] == Entry(order[i], config[order[i]])
  {
    seq(|order|, i requires 0 <= i < |order| => Entry(order[i], config[order[i]]))
  }

  /** Absorbing the entries of distinct keys absent from `acc` adds exactly those entries. */
  lemma {:induction false} AbsorbWritten(config: map<string, Value>, order: seq<string>, acc: map<string, Value>)
    requires forall i :: 0 <= i < |order| ==> order[i] in config && order[i] !in acc
    requires forall i, j :: 0 <= i < j < |order| ==> order[i] != order[j]
    ensures Absorb(Written(config, order) + [Ignored], acc) == Ok(acc + EntriesOf(config, order))
    decreases |order|
  {
    var entries := Written(config, order) + [Ignored];
    if order == [] {
      assert entries == [Ignored];
      assert Absorb(entries, acc) == Absorb([], acc);
      assert acc + EntriesOf(config, order) == acc;
    } else {
      var key := order[0];
      var acc' := acc[key := config[key]];
      assert entries[0] == Entry(key, config[key]);
      assert entries[1..] == Written(config, order[1..]) + [Ignored];
      forall i | 0 <= i < |order[1..]| ensures order[1..][i] !in acc' {
        assert order[1..][i] == order[i + 1];
      }
      AbsorbWritten(config, order[1..], acc');
      EntriesOfStep(config, order, acc);
    }
  }

  /**
   * A table whose keys are plain and whose values read back is read back
   * from what `WriteProperties` writes, whatever the enumeration order.
   */
  lemma WriteThenRead(config: map<string, Value>, order: seq<string>)
    requires EnumeratesOnce(order, config.Keys)
    requires forall k :: k in config ==> PlainKey(k) && ReadsBack(config[k])
    ensures Absorb(Entries(Split(Terminated(Lines(config, order, Format)), '\n')), map[]) == Ok(config)
  {
    var lines := Lines(config, order, Format);
    forall i | 0 <= i < |lines| ensures '\n' !in lines[i] {
      NoNewlineInLine(config, order[i]);
    }
    SplitTerminated(lines);
    forall i | 0 <= i < |lines| ensures ReadLine(lines[i]) == Entry(order[i], config[order[i]]) {
      ReadWrittenLine(config, order[i]);
    }
    EntriesOfWritten(config, order, lines);
    AbsorbWritten(config, order, map[]);
    EntriesOfAll(config, order);
  }

  /** Lines that each read as the entry under the same position of `order`, then an empty one. */
  lemma EntriesOfWritten(config: map<string, Value>, order: seq<string>, lines: seq<string>)
    requires forall i :: 0 <= i < |order| ==> order[i] in config
    requires |lines| == |order|
    requires forall i :: 0 <= i < |lines| ==> ReadLine(lines[i]) == Entry(order[i], config[order[i]])
    ensures Entries(lines + [""]) == Written(config, order) + [Ignored]
  {
    assert ReadLine("").Ignored?;
    var left := Entries(lines + [""]);
    var right := Written(config, order) + [Ignored];
    forall i | 0 <= i < |left|
      ensures left[i] == right[i]
    {
      if i < |lines| {
        assert (lines + [""])[i] == lines[i];
      }
    }
  }

  /** A written line holds no newline when neither its key nor its value text does. */
  lemma NoNewlineInLine(config: map<string, Value>, key: string)
    requires key in config && PlainKey(key) && ReadsBack(config[key])
    ensures '\n' !in Line(config, key, Format)
  {
  }

  // ---------------------------------------------------------------------------
  // Nested tables

  /** The value reached by following `steps` through nested tables, if any. */
  function Lookup(table: map<string, Value>, steps: seq<string>): Option<Value>
    requires |steps| >= 1
    decreases |steps|
  {
    if steps[0] !in table then None
    else if |steps| == 1 then Some(table[steps[0]])
    else match table[steps[0]]
      case Table(t) => Lookup(t, steps[1..])
      case _ => None
  }

  /**
   * `table` with `value` stored at the end of `steps`: each missing
   * intermediate table is created, an intermediate null cannot be entered and
   * an intermediate value of another kind cannot be cast to a table.
   */
  function Put(table: map<string, Value>, steps: seq<string>, value: Value): (r: Result<map<string, Value>>)
    requires |steps| >= 1
    ensures r.Ok? ==> r.value.Keys == table.Keys + {steps[0]}
    ensures r.Ok? ==> forall k :: k in table && k != steps[0] ==> r.value[k] == table[k]
    ensures r.Err? ==> r.error == NullReference || r.error == InvalidCast
    decreases |steps|
  {
    if |steps| == 1 then Ok(table[steps[0] := value])
    else
      var child := if steps[0] in table then table[steps[0]] else Table(map[]);
      match child
      case Table(t) =>
        (match Put(t, steps[1..], value)
         case Ok(t') => Ok(table[steps[0] := Table(t')])
         case Err(e) => Err(e))
      case Null => Err(NullReference)
      case _ => Err(InvalidCast)
  }

  /** After a successful `Put`, following the same steps reaches the value stored. */
  lemma {:induction false} PutThenLookup(table: map<string, Value>, steps: seq<string>, value: Value)
    requires |steps| >= 1 && Put(table, steps, value).Ok?
    ensures Lookup(Put(table, steps, value).value, steps) == Some(value)
    decreases |steps|
  {
    if |steps| > 1 {
      var child := if steps[0] in table then table[steps[0]] else Table(map[]);
      PutThenLookup(child.entries, steps[1..], value);
    }
  }

  /** A path none of whose tables exists yet is created in full. */
  lemma {:induction false} PutCreatesPath(table: map<string, Value>, steps: seq<string>, value: Value)
    requires |steps| >= 1 && steps[0] !in table
    ensures Put(table, steps, value).Ok?
    decreases |steps|
  {
    if |steps| > 1 {
      PutCreatesPath(map[], steps[1..], value);
    }
  }

  /** A `Put` fails only at an intermediate step that holds something other than a table. */
  lemma {:induction false} PutFailsOnlyOnNonTable(table: map<string, Value>, steps: seq<string>, value: Value)
    requires |steps| >= 1 && Put(table, steps, value).Err?
    ensures exists j :: 1 <= j < |steps| && Lookup(table, steps[..j]).Some? && !Lookup(table, steps[..j]).value.Table?
    decreases |steps|
  {
    assert |steps| > 1;
    if steps[0] !in table {
      PutCreatesPath(table, steps, value);
      assert false;
    }
    var child := table[steps[0]];
    if child.Table? {
      PutFailsOnlyOnNonTable(child.entries, steps[1..], value);
      var j :| 1 <= j < |steps[1..]| && Lookup(child.entries, steps[1..][..j]).Some?
        && !Lookup(child.entries, steps[1..][..j]).value.Table?;
      assert steps[..j + 1][1..] == steps[1..][..j];
      assert Lookup(table, steps[..j + 1]) == Lookup(child.entries, steps[1..][..j]);
    } else {
      assert Lookup(table, steps[..1]) == Some(child);
    }
  }

  // ---------------------------------------------------------------------------
  // The store

  class Config {
    var config: map<string, Value>
    /** Values found by dotted lookups; nothing in this model fills it. */
    var nestedCache: map<string, Value>
    /** Set by every edit; nothing clears it. */
    var changed: bool

    /** A store holding `table`, as a successful load leaves it. */
    constructor (table: map<string, Value>)
      ensures config == table && nestedCache == map[] && !changed
    {
      config := table;
      nestedCache := map[];
      changed := false;
    }

    predicate Exists(key: string)
      reads this`config
    {
      key in config
    }

    /**
     * The value under `key` converted by `cast`, or `def` when the key is
     * missing or the conversion is an invalid cast; any other conversion
     * error propagates.
     */
    function Get<T>(key: string, def: T, cast: Value -> Result<T>): (r: Result<T>)
      reads this`config
      ensures !Exists(key) ==> r == Ok(def)
      ensures Exists(key) && cast(config[key]).Ok? ==> r == cast(config[key])
      ensures Exists(key) && cast(config[key]) == Err(InvalidCast) ==> r == Ok(def)
      ensures r.Err? ==> Exists(key) && r == cast(config[key]) && r.error != InvalidCast
    {
      if key !in config then Ok(def)
      else match cast(config[key])
        case Ok(v) => Ok(v)
        case Err(e) => if e == InvalidCast then Ok(def) else Err(e)
    }

    method Set(key: string, value: Value)
      modifies this`config, this`changed
      ensures config == old(config)[key := value] && changed
    {
      config := config[key := value];
      changed := true;
    }

    /** Deletes the entry under `key`, if any. */
    method Remove(key: string)
      modifies this`config, this`changed
      ensures config == old(config) - {key} && changed
    {
      config := config - {key};
      changed := true;
    }

    method SetAll(values: map<string, Value>)
      modifies this`config, this`changed
      ensures config == values && changed
    {
      config := values;
      changed := true;
    }

    /**
     * Stores `value` at the dotted path `key`, creating missing tables along
     * it, then empties the lookup cache. A failed walk raises before anything
     * has changed.
     */
    method SetNested(key: string, value: Value) returns (r: Outcome)
      modifies this`config, this`nestedCache, this`changed
      ensures var result := Put(old(config), Split(key, '.'), value);
        && (result.Err? ==>
              r == Fail(result.error) && config == old(config) && nestedCache == old(nestedCache) && changed == old(changed))
        && (result.Ok? ==> r == Pass && config == result.value && nestedCache == map[] && changed)
      ensures r.Pass? ==> Lookup(config, Split(key, '.')) == Some(value)
    {
      var steps := Split(key, '.');
      match Put(config, steps, value) {
        case Err(e) =>
          return Fail(e);
        case Ok(t) =>
          PutThenLookup(config, steps, value);
          config := t;
          nestedCache := map[];
          changed := true;
          r := Pass;
      }
    }
  }
}
