/**
 * The text of the CSV export (src/lib/csv.ts, lines 4-15): a fixed header
 * line and one row per episode, joined with `\n`. Only the name field is
 * quoted, with every `"` doubled as in RFC 4180, section 2, rule 7; the
 * episode code and the air date are written as they are.
 */
module Csv {
  import opened Wrappers
  import opened NumberText
  import opened Schemas
  import opened SetOps

  // ---------------------------------------------------------------------------
  // Array.prototype.join and String.prototype.split
  // ---------------------------------------------------------------------------

  /** `parts.join(sep)`. */
  function Join(parts: seq<string>, sep: string): string {
    if |parts| == 0 then ""
    else if |parts| == 1 then parts[0]
    else parts[0] + sep + Join(parts[1..], sep)
  }

  /** `s.split(c)`: the pieces between the occurrences of `c`. */
  function Split(s: string, c: char): (parts: seq<string>)
    ensures |parts| >= 1
    ensures forall i :: 0 <= i < |parts| ==> c !in parts[i]
    decreases |s|
  {
    if c !in s then [s]
    else
      var k := FirstIndex(s, c);
      assert c !in s[..k] by {
        forall j | 0 <= j < k ensures s[j] != c {
          if s[j] == c {
            FirstIndexIsFirst(s, c, j);
          }
        }
      }
      [s[..k]] + Split(s[k + 1..], c)
  }

  /** Joining pieces that do not contain the separator and splitting again gives them back. */
  lemma {:induction false} SplitJoin(parts: seq<string>, c: char)
    requires |parts| >= 1
    requires forall i :: 0 <= i < |parts| ==> c !in parts[i]
    ensures Split(Join(parts, [c]), c) == parts
  {
    if |parts| > 1 {
      var head, tail := parts[0], Join(parts[1..], [c]);
      var s := head + [c] + tail;
      assert s == Join(parts, [c]);
      assert c !in head;
      FirstIndexAfter(head, c, tail);
      assert s[..|head|] == head && s[|head| + 1..] == tail;
      assert forall i :: 0 <= i < |parts[1..]| ==> c !in parts[1..][i] by {
        forall i | 0 <= i < |parts[1..]| ensures c !in parts[1..][i] {
          assert parts[1..][i] == parts[i + 1];
        }
      }
      calc {
        Split(s, c);
      ==
        [s[..|head|]] + Split(s[|head| + 1..], c);
      ==
        [head] + Split(tail, c);
      == { SplitJoin(parts[1..], c); }
        [head] + parts[1..];
      ==
        parts;
      }
    }
  }

  /** A row is its four fields separated by commas. */
  lemma RowFields(ep: Episode)
    ensures Row(ep) == IntToString(ep.id) + "," + (QuotedName(ep.name) + "," + (ep.episode + "," + ep.airDate))
  {
    var fields := [IntToString(ep.id), QuotedName(ep.name), ep.episode, ep.airDate];
    assert Join(fields[1..][1..][1..], ",") == ep.airDate;
    assert Join(fields[1..][1..], ",") == ep.episode + "," + ep.airDate;
    assert Join(fields[1..], ",") == QuotedName(ep.name) + "," + (ep.episode + "," + ep.airDate);
  }

  /** Appending a piece to a join of at least one piece. */
  lemma {:induction false} JoinSnoc(parts: seq<string>, last: string, sep: string)
    requires |parts| >= 1
    ensures Join(parts + [last], sep) == Join(parts, sep) + sep + last
  {
    if |parts| > 1 {
      JoinSnoc(parts[1..], last, sep);
      assert (parts + [last])[1..] == parts[1..] + [last];
    } else {
      assert (parts + [last])[1..] == [last];
    }
  }

  /** A character that is neither in the separator nor in any piece is not in the join. */
  lemma {:induction false} JoinAvoids(parts: seq<string>, sep: string, c: char)
    requires c !in sep
    requires forall i :: 0 <= i < |parts| ==> c !in parts[i]
    ensures c !in Join(parts, sep)
  {
    if |parts| > 1 {
      JoinAvoids(parts[1..], sep, c);
    }
  }

  // ---------------------------------------------------------------------------
  // Rows and the whole text
  // ---------------------------------------------------------------------------

  /** `headers.join(',')` for the four column names ID, Name, Episode Code, Air Date. */
  const HeaderLine: string := "ID,Name,Episode Code,Air Date"

  /** The name with every `"` doubled and nothing else changed (src/lib/csv.ts:10). */
  function EscapeQuotes(name: string): string {
    if name == [] then []
    else (if name[0] == '"' then "\"\"" else [name[0]]) + EscapeQuotes(name[1..])
  }

  /** Escaping doubles every `"` and keeps every other character. */
  lemma {:induction false} EscapeQuotesCounts(name: string)
    ensures |EscapeQuotes(name)| == |name| + multiset(name)['"']
    ensures multiset(EscapeQuotes(name))['"'] == 2 * multiset(name)['"']
    ensures forall c :: c != '"' ==> multiset(EscapeQuotes(name))[c] == multiset(name)[c]
  {
    if name != [] {
      EscapeQuotesCounts(name[1..]);
      assert name == [name[0]] + name[1..];
    }
  }

  /** The name field: quoted, with its quotes escaped. */
  function QuotedName(name: string): string {
    "\"" + EscapeQuotes(name) + "\""
  }

  /** One episode's row (src/lib/csv.ts:8-13): id, quoted name, episode code and air date, comma-separated. */
  function Row(ep: Episode): string {
    Join([IntToString(ep.id), QuotedName(ep.name), ep.episode, ep.airDate], ",")
  }

  function Rows(data: seq<Episode>): seq<string> {
    seq(|data|, i requires 0 <= i < |data| => Row(data[i]))
  }

  /**
   * The exported text, or `None` when there is nothing to export (the
   * function returns before creating a file).
   */
  function CsvText(data: seq<Episode>): (csv: Option<string>)
    ensures csv.None? <==> |data| == 0
    ensures csv.Some? ==> |csv.value| > |HeaderLine| + 1 && csv.value[..|HeaderLine| + 1] == HeaderLine + "\n"
  {
    if |data| == 0 then None
    else
      var lines := [HeaderLine] + Rows(data);
      var text := Join(lines, "\n");
      assert text == HeaderLine + "\n" + Join(lines[1..], "\n");
      Some(text)
  }

  /** A single episode: the header line, `\n`, its row. */
  lemma CsvOfOne(ep: Episode)
    ensures CsvText([ep]) == Some(HeaderLine + "\n" + Row(ep))
  {
    assert Rows([ep]) == [Row(ep)];
    assert Join([HeaderLine] + [Row(ep)], "\n") == HeaderLine + "\n" + Row(ep);
  }

  /** One more episode adds `\n` and its row at the end: rows follow the input order. */
  lemma CsvAppend(data: seq<Episode>, ep: Episode)
    requires |data| > 0
    ensures CsvText(data + [ep]) == Some(CsvText(data).value + "\n" + Row(ep))
  {
    assert Rows(data + [ep]) == Rows(data) + [Row(ep)];
    assert [HeaderLine] + Rows(data + [ep]) == ([HeaderLine] + Rows(data)) + [Row(ep)];
    JoinSnoc([HeaderLine] + Rows(data), Row(ep), "\n");
  }

  /**
   * When no field holds a line break, the lines of the text are exactly the
   * header and the rows, in order.
   */
  lemma CsvLines(data: seq<Episode>)
    requires |data| > 0
    requires forall i :: 0 <= i < |data| ==>
      '\n' !in data[i].name && '\n' !in data[i].episode && '\n' !in data[i].airDate
    ensures var lines := Split(CsvText(data).value, '\n');
      && |lines| == |data| + 1
      && lines[0] == HeaderLine
      && forall i :: 0 <= i < |data| ==> lines[i + 1] == Row(data[i])
  {
    var lines := [HeaderLine] + Rows(data);
    forall i | 0 <= i < |data| ensures '\n' !in Rows(data)[i] {
      RowAvoids(data[i], '\n');
    }
    assert forall i :: 0 <= i < |lines| ==> '\n' !in lines[i] by {
      forall i | 0 <= i < |lines| ensures '\n' !in lines[i] {
        if i > 0 {
          assert lines[i] == Rows(data)[i - 1];
        }
      }
    }
    SplitJoin(lines, '\n');
    assert forall i :: 0 <= i < |data| ==> lines[i + 1] == Row(data[i]);
  }

  /** A character other than `,` `"` `-` and the digits is in a row only if it is in one of its fields. */
  lemma RowAvoids(ep: Episode, c: char)
    requires c != ',' && c != '"' && c != '-' && !IsDigit(c)
    requires c !in ep.name && c !in ep.episode && c !in ep.airDate
    ensures c !in Row(ep)
  {
    var id := IntToString(ep.id);
    assert c !in id by {
      if ep.id < 0 {
        assert id == [id[0]] + id[1..];
        assert forall k :: 0 <= k < |id[1..]| ==> IsDigit(id[1..][k]);
      } else {
        assert forall k :: 0 <= k < |id| ==> IsDigit(id[k]);
      }
    }
    var e := EscapeQuotes(ep.name);
    assert c !in e by {
      EscapeQuotesCounts(ep.name);
      assert multiset(e)[c] == multiset(ep.name)[c] == 0;
    }
    JoinAvoids([id, QuotedName(ep.name), ep.episode, ep.airDate], ",", c);
  }

  // ---------------------------------------------------------------------------
  // Reading a row back, RFC 4180 style
  // ---------------------------------------------------------------------------

  /** Every `"` is part of a doubled pair `""`. */
  ghost predicate NoLoneQuote(s: string)
    decreases |s|
  {
    if s == [] then true
    else if s[0] == '"' then |s| >= 2 && s[1] == '"' && NoLoneQuote(s[2..])
    else NoLoneQuote(s[1..])
  }

  lemma {:induction false} EscapedHasNoLoneQuote(name: string)
    ensures NoLoneQuote(EscapeQuotes(name))
  {
    if name != [] {
      EscapedHasNoLoneQuote(name[1..]);
      var e := EscapeQuotes(name);
      if name[0] == '"' {
        assert e[2..] == EscapeQuotes(name[1..]);
      } else {
        assert e[1..] == EscapeQuotes(name[1..]);
      }
    }
  }

  /**
   * Reads the inside of a quoted field, `s` starting just after the opening
   * quote: `""` stands for `"`, a lone `"` ends the field. Returns the field
   * and what follows the closing quote.
   */
  function ReadQuoted(s: string): (r: (string, string))
    ensures |r.1| <= |s|
    decreases |s|
  {
    if s == [] then ([], [])
    else if s[0] == '"' then
      if |s| > 1 && s[1] == '"' then
        var (f, rest) := ReadQuoted(s[2..]);
        ("\"" + f, rest)
      else ([], s[1..])
    else
      var (f, rest) := ReadQuoted(s[1..]);
      ([s[0]] + f, rest)
  }

  /** The fields of one CSV record. */
  function ParseRecord(s: string): (fields: seq<string>)
    ensures |fields| >= 1
    decreases |s|
  {
    if |s| > 0 && s[0] == '"' then
      var (f, rest) := ReadQuoted(s[1..]);
      if |rest| > 0 && rest[0] == ',' then [f] + ParseRecord(rest[1..]) else [f]
    else if ',' in s then
      var k := FirstIndex(s, ',');
      [s[..k]] + ParseRecord(s[k + 1..])
    else [s]
  }

  /** Un-doubling the escaped name gives the name back. */
  lemma {:induction false} ReadQuotedEscaped(name: string, after: string)
    requires after == [] || after[0] != '"'
    ensures ReadQuoted(EscapeQuotes(name) + "\"" + after) == (name, after)
  {
    var s := EscapeQuotes(name) + "\"" + after;
    if name == [] {
      assert s == "\"" + after;
    } else {
      ReadQuotedEscaped(name[1..], after);
      var tail := EscapeQuotes(name[1..]) + "\"" + after;
      if name[0] == '"' {
        assert s == "\"\"" + tail;
        assert s[2..] == tail;
      } else {
        assert s == [name[0]] + tail;
        assert s[1..] == tail;
      }
      assert name == [name[0]] + name[1..];
    }
  }

  /** A field that the reader takes literally: no `,` and no leading `"`. */
  predicate PlainField(f: string) {
    ',' !in f && (f == [] || f[0] != '"')
  }

  lemma ParsePlainThenMore(f: string, rest: string)
    requires PlainField(f)
    ensures ParseRecord(f + "," + rest) == [f] + ParseRecord(rest)
  {
    var s := f + "," + rest;
    assert s == f + [','] + rest;
    FirstIndexAfter(f, ',', rest);
    assert s[..|f|] == f && s[|f| + 1..] == rest;
  }

  lemma ParseQuotedThenMore(name: string, rest: string)
    ensures ParseRecord(QuotedName(name) + "," + rest) == [name] + ParseRecord(rest)
  {
    var s := QuotedName(name) + "," + rest;
    assert s[1..] == EscapeQuotes(name) + "\"" + ("," + rest);
    ReadQuotedEscaped(name, "," + rest);
  }

  lemma IdIsPlain(id: int)
    ensures PlainField(IntToString(id))
  {
    var s := IntToString(id);
    assert forall k :: 1 <= k < |s| ==> IsDigit(s[k]);
    assert s[0] == '-' || IsDigit(s[0]);
  }

  /** The first three fields of a row read back; the unquoted air date is read as it stands. */
  lemma RowRecord(ep: Episode)
    requires PlainField(ep.episode)
    ensures ParseRecord(Row(ep)) == [IntToString(ep.id), ep.name, ep.episode] + ParseRecord(ep.airDate)
  {
    RowFields(ep);
    IdIsPlain(ep.id);
    FieldsRecord(IntToString(ep.id), ep.name, ep.episode, ep.airDate);
  }

  /** A plain field, a quoted name and a plain field read back, followed by whatever the rest reads as. */
  lemma FieldsRecord(id: string, name: string, code: string, rest: string)
    requires PlainField(id) && PlainField(code)
    ensures ParseRecord(id + "," + (QuotedName(name) + "," + (code + "," + rest)))
         == [id, name, code] + ParseRecord(rest)
  {
    var afterName := code + "," + rest;
    var afterId := QuotedName(name) + "," + afterName;
    calc {
      ParseRecord(id + "," + afterId);
    == { ParsePlainThenMore(id, afterId); }
      [id] + ParseRecord(afterId);
    == { ParseQuotedThenMore(name, afterName); }
      [id] + ([name] + ParseRecord(afterName));
    == { ParsePlainThenMore(code, rest); }
      [id] + ([name] + ([code] + ParseRecord(rest)));
    ==
      [id, name, code] + ParseRecord(rest);
    }
  }

  /**
   * A row reads back as its four fields, the name un-escaped, provided the
   * unquoted episode code and air date hold no `,` and do not start with `"`.
   */
  lemma RowRoundTrip(ep: Episode)
    requires PlainField(ep.episode) && PlainField(ep.airDate)
    ensures ParseRecord(Row(ep)) == [IntToString(ep.id), ep.name, ep.episode, ep.airDate]
  {
    RowRecord(ep);
  }

  /**
   * The air date is not quoted: one holding a comma, such as
   * "December 2, 2013", reads back as two fields, so the row has five.
   */
  lemma CommaInAirDateSplitsRow(ep: Episode, before: string, after: string)
    requires PlainField(ep.episode) && PlainField(before) && PlainField(after)
    requires ep.airDate == before + "," + after
    ensures ParseRecord(Row(ep)) == [IntToString(ep.id), ep.name, ep.episode, before, after]
  {
    RowRecord(ep);
    ParsePlainThenMore(before, after);
  }

  /** The first episode of the hook tests' fixture: its row does not read back as four fields. */
  lemma PilotRowHasFiveFields()
    ensures var pilot := Episode(1, "Pilot", "December 2, 2013", "S01E01", [], "https://rickandmortyapi.com/api/episode/1", "");
      |ParseRecord(Row(pilot))| == 5
  {
    var pilot := Episode(1, "Pilot", "December 2, 2013", "S01E01", [], "https://rickandmortyapi.com/api/episode/1", "");
    assert pilot.airDate == "December 2" + "," + " 2013";
    assert PlainField("S01E01") && PlainField("December 2") && PlainField(" 2013");
    CommaInAirDateSplitsRow(pilot, "December 2", " 2013");
  }
}
