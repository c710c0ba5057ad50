/**
 * The plain `key=value` property store: a string table filled from the lines
 * of a file, edited one key at a time and written back one line per entry.
 * Reading and writing the file itself is left to the caller, which passes
 * or receives the lines.
 */
module PropertyFiles {
  import opened Common

  /** A key and the value text read from one kept line. */
  datatype Pair = Pair(key: string, value: string)

  /** A line that parsing passes over: one without `=`, or a comment starting with `#`, tested ordinally. */
  predicate Skipped(line: string) {
    '=' !in line || StartsWith(line, "#")
  }

  /** The pieces of a kept line around its `=` signs. */
  function Pieces(line: string): (parts: seq<string>)
    requires '=' in line
    ensures |parts| >= 2
  {
    var i := IndexOf(line, '=').value;
    assert Split(line, '=') == [line[..i]] + Split(line[i + 1..], '=');
    Split(line, '=')
  }

  /** The entry a kept line holds: the first piece is the key and the second the value. */
  function LineEntry(line: string): Option<Pair> {
    if Skipped(line) then None
    else
      var parts := Pieces(line);
      Some(Pair(parts[0], parts[1]))
  }

  /**
   * The key is the text before the first `=` and the value the text after
   * it up to the next `=`, if any; neither is trimmed, and whatever follows
   * a second `=` is dropped.
   */
  lemma LineEntryParts(line: string)
    requires !Skipped(line)
    ensures var i := IndexOf(line, '=').value;
      var rest := line[i + 1..];
      var p := LineEntry(line).value;
      && p.key == line[..i]
      && '=' !in p.value
      && (p.value == rest || StartsWith(rest, p.value + "="))
  {
    var i := IndexOf(line, '=').value;
    var rest := line[i + 1..];
    assert Split(line, '=') == [line[..i]] + Split(rest, '=');
    FirstPiece(rest);
  }

  /** The first piece of a text is all of it, or what comes before its first `=`. */
  lemma FirstPiece(rest: string)
    ensures var v := Split(rest, '=')[0];
      '=' !in v && (v == rest || StartsWith(rest, v + "="))
  {
    match IndexOf(rest, '=') {
      case None =>
        assert Split(rest, '=') == [rest];
      case Some(j) =>
        FirstPieceBefore(rest, j);
    }
  }

  lemma FirstPieceBefore(rest: string, j: nat)
    requires IndexOf(rest, '=') == Some(j)
    ensures Split(rest, '=')[0] == rest[..j] && StartsWith(rest, rest[..j] + "=")
  {
    assert Split(rest, '=') == [rest[..j]] + Split(rest[j + 1..], '=');
    PrefixThen(rest, j);
  }

  /** A text starts with its first `j` characters followed by its `j`-th. */
  lemma PrefixThen(s: string, j: nat)
    requires j < |s|
    ensures StartsWith(s, s[..j] + [s[j]])
  {
    assert s[..j + 1] == s[..j] + [s[j]];
  }

  /** What each line contributes, in order. */
  function Entries(lines: seq<string>): (entries: seq<Option<Pair>>)
    ensures |entries| == |lines|
    ensures forall i :: 0 <= i < |lines| ==> entries[i] == LineEntry(lines[i])
  {
    seq(|lines|, i requires 0 <= i < |lines| => LineEntry(lines[i]))
  }

  /** The table after a parse and the error that stopped it, if any. */
  datatype Filled = Filled(table: map<string, string>, error: Option<Error>)

  /**
   * Adds `entries` to `acc` in order. Adding a key that is already present
   * raises, and the entries added before it stay.
   */
  function Absorb(entries: seq<Option<Pair>>, acc: map<string, string>): Filled
    decreases |entries|
  {
    if entries == [] then Filled(acc, None)
    else match entries[0]
      case None => Absorb(entries[1..], acc)
      case Some(p) =>
        if p.key in acc then Filled(acc, Some(DuplicateKey(p.key)))
        else Absorb(entries[1..], acc[p.key := p.value])
  }

  lemma AbsorbUnfold(entries: seq<Option<Pair>>, i: nat, acc: map<string, string>)
    requires i < |entries|
    ensures var e := entries[i];
      Absorb(entries[i..], acc) ==
        if e.None? then Absorb(entries[i + 1..], acc)
        else if e.value.key in acc then Filled(acc, Some(DuplicateKey(e.value.key)))
        else Absorb(entries[i + 1..], acc[e.value.key := e.value.value])
  {
    assert entries[i..][0] == entries[i] && entries[i..][1..] == entries[i + 1..];
  }

  /** An entry whose key was already in the table or earlier in `entries`. */
  ghost predicate Repeated(entries: seq<Option<Pair>>, acc: map<string, string>, i: int)
    requires 0 <= i < |entries|
  {
    && entries[i].Some?
    && (|| entries[i].value.key in acc
        || exists j :: 0 <= j < i && entries[j].Some? && entries[j].value.key == entries[i].value.key)
  }

  ghost predicate HasRepeat(entries: seq<Option<Pair>>, acc: map<string, string>) {
    exists i :: 0 <= i < |entries| && Repeated(entries, acc, i)
  }

  /** Past a first entry, the repeats are those of the rest against the table that entry leaves. */
  lemma HasRepeatShift(entries: seq<Option<Pair>>, acc: map<string, string>)
    requires |entries| > 0
    requires entries[0].Some? ==> entries[0].value.key !in acc
    ensures var acc' := if entries[0].Some? then acc[entries[0].value.key := entries[0].value.value] else acc;
      HasRepeat(entries, acc) <==> HasRepeat(entries[1..], acc')
  {
    var acc' := if entries[0].Some? then acc[entries[0].value.key := entries[0].value.value] else acc;
    var rest := entries[1..];
    if HasRepeat(entries, acc) {
      var i :| 0 <= i < |entries| && Repeated(entries, acc, i);
      assert i > 0;
      assert rest[i - 1] == entries[i];
      if entries[i].value.key !in acc' {
        var j :| 0 <= j < i && entries[j].Some? && entries[j].value.key == entries[i].value.key;
        assert j > 0 && rest[j - 1] == entries[j];
      }
      assert Repeated(rest, acc', i - 1);
    }
    if HasRepeat(rest, acc') {
      var i :| 0 <= i < |rest| && Repeated(rest, acc', i);
      assert entries[i + 1] == rest[i];
      if rest[i].value.key in acc' && rest[i].value.key !in acc {
        assert Repeated(entries, acc, i + 1);
      } else if rest[i].value.key !in acc' {
        var j :| 0 <= j < i && rest[j].Some? && rest[j].value.key == rest[i].value.key;
        assert entries[j + 1] == rest[j];
      }
      assert Repeated(entries, acc, i + 1);
    }
  }

  /**
   * A parse fails exactly when some kept line repeats a key already in the
   * table or on an earlier line, and then with a duplicate-key error.
   */
  lemma {:induction false} AbsorbFailsOnRepeat(entries: seq<Option<Pair>>, acc: map<string, string>)
    ensures Absorb(entries, acc).error.Some? <==> HasRepeat(entries, acc)
    ensures Absorb(entries, acc).error.Some? ==>
      exists k :: Absorb(entries, acc).error == Some(DuplicateKey(k))
    decreases |entries|
  {
    if entries != [] {
      if entries[0].Some? && entries[0].value.key in acc {
        assert Repeated(entries, acc, 0);
      } else {
        var acc' := if entries[0].Some? then acc[entries[0].value.key := entries[0].value.value] else acc;
        assert Absorb(entries, acc) == Absorb(entries[1..], acc');
        AbsorbFailsOnRepeat(entries[1..], acc');
        HasRepeatShift(entries, acc);
      }
    }
  }

  /** The table only grows: entries present before a parse keep their values, even when it fails. */
  lemma {:induction false} AbsorbKeepsEarlier(entries: seq<Option<Pair>>, acc: map<string, string>)
    ensures forall k :: k in acc ==> k in Absorb(entries, acc).table && Absorb(entries, acc).table[k] == acc[k]
    decreases |entries|
  {
    if entries != [] && !(entries[0].Some? && entries[0].value.key in acc) {
      var acc' := if entries[0].Some? then acc[entries[0].value.key := entries[0].value.value] else acc;
      assert Absorb(entries, acc) == Absorb(entries[1..], acc');
      AbsorbKeepsEarlier(entries[1..], acc');
    }
  }

  /** A property value is written as it is. */
  function Verbatim(value: string): string {
    value
  }

  /** An entry that reads back from its line: no `=` in it and no `#` in front of the key. */
  predicate PlainEntry(key: string, value: string) {
    '=' !in key && '=' !in value && !StartsWith(key, "#")
  }

  /** The line written for a plain entry is read as that entry. */
  lemma ReadWrittenLine(key: string, value: string)
    requires PlainEntry(key, value)
    ensures LineEntry(key + "=" + value) == Some(Pair(key, value))
  {
    var line := key + "=" + value;
    assert line[|key|] == '=' && line[..|key|] == key;
    IndexOfIs(line, '=', |key|);
    assert line[|key| + 1..] == value;
    assert !StartsWith(line, "#") by {
      if key == [] {
        assert line[..1] == "=";
      } else {
        assert line[..1] == key[..1];
      }
    }
    assert Split(line, '=') == [key] + Split(value, '=');
  }

  /** The entries read from the lines written for `order`. */
  function Written(table: map<string, string>, order: seq<string>): (entries: seq<Option<Pair>>)
    requires forall i :: 0 <= i < |order| ==> order[i] in table
    ensures |entries| == |order|
    ensures forall i :: 0 <= i < |order| ==> entries[i] == Some(Pair(order[i], table[order[i]]))
  {
    seq(|order|, i requires 0 <= i < |order| => Some(Pair(order[i], table[order[i]])))
  }

  /** Absorbing the entries of distinct keys absent from `acc` adds exactly those entries. */
  lemma {:induction false} AbsorbWritten(table: map<string, string>, order: seq<string>, acc: map<string, string>)
    requires forall i :: 0 <= i < |order| ==> order[i] in table && order[i] !in acc
    requires forall i, j :: 0 <= i < j < |order| ==> order[i] != order[j]
    ensures Absorb(Written(table, order), acc) == Filled(acc + EntriesOf(table, order), None)
    decreases |order|
  {
    var entries := Written(table, order);
    if order == [] {
      assert acc + EntriesOf(table, order) == acc;
    } else {
      var key := order[0];
      var acc' := acc[key := table[key]];
      assert entries[1..] == Written(table, order[1..]);
      forall i | 0 <= i < |order[1..]| ensures order[1..][i] !in acc' {
        assert order[1..][i] == order[i + 1];
      }
      AbsorbWritten(table, order[1..], acc');
      EntriesOfStep(table, order, acc);
    }
  }

  /** Lines that each read as the entry at the same position of `order`. */
  lemma EntriesOfWritten(table: map<string, string>, order: seq<string>)
    requires forall i :: 0 <= i < |order| ==> order[i] in table && PlainEntry(order[i], table[order[i]])
    ensures Entries(Lines(table, order, Verbatim)) == Written(table, order)
  {
    forall i | 0 <= i < |order|
      ensures Entries(Lines(table, order, Verbatim))[i] == Written(table, order)[i]
    {
      ReadWrittenLine(order[i], table[order[i]]);
    }
  }

  /**
   * A table of plain entries is read back, into an empty store, from the
   * lines written for it, whatever the enumeration order.
   */
  lemma WriteThenParse(table: map<string, string>, order: seq<string>)
    requires EnumeratesOnce(order, table.Keys)
    requires forall k :: k in table ==> PlainEntry(k, table[k])
    ensures Absorb(Entries(Lines(table, order, Verbatim)), map[]) == Filled(table, None)
  {
    EntriesOfWritten(table, order);
    AbsorbWritten(table, order, map[]);
    EntriesOfAll(table, order);
  }

  class Properties {
    var properties: map<string, string>

    /** A store over a file, before anything is read. */
    constructor ()
      ensures properties == map[]
    {
      properties := map[];
    }

    /**
     * Adds the entry of every kept line of the file, in order; `lines` is
     * absent when the file does not exist, which leaves the store as it is.
     * A key already present raises, keeping the entries added before it.
     */
    method Parse(lines: Option<seq<string>>) returns (r: Outcome)
      modifies this
      ensures lines.None? ==> r == Pass && properties == old(properties)
      ensures lines.Some? ==>
        var filled := Absorb(Entries(lines.value), old(properties));
        && properties == filled.table
        && (r.Pass? <==> filled.error.None?)
        && (r.Fail? ==> filled.error == Some(r.error))
    {
      if lines.None? {
        return Pass;
      }
      var text := lines.value;
      ghost var entries := Entries(text);
      for i := 0 to |text|
        invariant Absorb(entries[i..], properties) == Absorb(entries, old(properties))
      {
        AbsorbUnfold(entries, i, properties);
        var line := text[i];
        if !('=' in line) || StartsWith(line, "#") {
          continue;
        }
        var split := Pieces(line);
        if split[0] in properties {
          return Fail(DuplicateKey(split[0]));
        }
        properties := properties[split[0] := split[1]];
      }
      assert entries[|text|..] == [];
      r := Pass;
    }

    predicate ValueExists(key: string)
      reads this
    {
      key in properties
    }

    /** The value stored under `key`, or `fallback` when there is none. */
    function GetValue(key: string, fallback: string): (v: string)
      reads this
      ensures ValueExists(key) ==> v == properties[key]
      ensures !ValueExists(key) ==> v == fallback
    {
      if key in properties then properties[key] else fallback
    }

    /** Inserts or overwrites the entry under `key`; no other entry changes. */
    method SetValue(key: string, value: string)
      modifies this
      ensures properties == old(properties)[key := value]
      ensures ValueExists(key) && GetValue(key, "") == value
      ensures forall k :: k != key ==> (ValueExists(k) <==> k in old(properties)) && GetValue(k, "") == old(GetValue(k, ""))
    {
      if key in properties {
        properties := properties[key := value];
      } else {
        properties := properties[key := value];
      }
    }

    /**
     * The lines of the file: one `key=value` line per entry, in the order
     * `order` in which the table happened to be enumerated.
     */
    method WriteToFile() returns (lines: seq<string>, ghost order: seq<string>)
      ensures EnumeratesOnce(order, properties.Keys)
      ensures lines == Lines(properties, order, Verbatim)
    {
      lines, order := [], [];
      var remaining := properties.Keys;
      while remaining != {}
        invariant remaining <= properties.Keys
        invariant forall x :: x in properties <==> x in remaining || x in order
        invariant forall x :: x in remaining ==> x !in order
        invariant |order| + |remaining| == |properties|
        invariant forall i, j :: 0 <= i < j < |order| ==> order[i] != order[j]
        invariant lines == Lines(properties, order, Verbatim)
        decreases remaining
      {
        NonEmptyHasString(remaining);
        var key :| key in remaining;
        lines := lines + [key + "=" + properties[key]];
        order := order + [key];
        remaining := remaining - {key};
      }
    }
  }
}
