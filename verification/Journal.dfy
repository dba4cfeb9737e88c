/** The text of the journal: printing, splitting and parsing its lines (journal.go, cleaner.go). */
module Journal {
  import opened Options
  import opened Texts

  /** The three fields of a line: expiry date, lifetime, path of the file. */
  datatype Entry = Entry(date: string, ttl: string, path: string)

  predicate Clean(e: Entry) {
    && Free(e.date, ',') && Free(e.ttl, ',') && Free(e.path, ',')
    && Free(e.date, '\n') && Free(e.ttl, '\n') && Free(e.path, '\n')
  }

  function Line(e: Entry): string {
    e.date + "," + e.ttl + "," + e.path
  }

  /** What the journal holds after some entries were committed. */
  function Text(es: seq<Entry>): string {
    if es == [] then "" else Line(es[0]) + "\n" + Text(es[1..])
  }

  function ParseLine(line: string): Option<Entry> {
    var f := Split(line, ',');
    if |f| == 3 then Some(Entry(f[0], f[1], f[2])) else None
  }

  /** The entries of a text, one line after the other; other lines are passed over. */
  function ParseLines(lines: seq<string>): seq<Entry> {
    if lines == [] then []
    else
      var rest := ParseLines(lines[1..]);
      match ParseLine(lines[0]) case Some(e) => [e] + rest case None => rest
  }

  function Parse(text: string): seq<Entry> {
    ParseLines(Split(text, '\n'))
  }

  /** Committing is appending: one more entry is one more line at the end. */
  lemma {:induction false} TextGrows(es: seq<Entry>, e: Entry)
    ensures Text(es + [e]) == Text(es) + Line(e) + "\n"
  {
    if es == [] {
      assert [e][1..] == [];
    } else {
      TextGrows(es[1..], e);
      assert (es + [e])[1..] == es[1..] + [e];
    }
  }

  lemma LineParts(e: Entry)
    ensures Split(Line(e), ',') == Split(e.date, ',') + Split(e.ttl, ',') + Split(e.path, ',')
  {
    assert Line(e) == (e.date + [','] + e.ttl) + [','] + e.path;
    SplitAt(e.date + [','] + e.ttl, ',', e.path);
    SplitAt(e.date, ',', e.ttl);
  }

  /** A line is read back as it was written exactly when no field holds a comma. */
  lemma LineIff(e: Entry)
    ensures ParseLine(Line(e)) == Some(e) <==> Free(e.date, ',') && Free(e.ttl, ',') && Free(e.path, ',')
  {
    LineParts(e);
    SplitSingle(e.date, ',');
    SplitSingle(e.ttl, ',');
    SplitSingle(e.path, ',');
    if Free(e.date, ',') && Free(e.ttl, ',') && Free(e.path, ',') {
      SplitFree(e.date, ',');
      SplitFree(e.ttl, ',');
      SplitFree(e.path, ',');
    }
  }

  /** A line is read as an entry exactly when it is the line of that entry and no field holds a comma. */
  lemma ParseIff(line: string, e: Entry)
    ensures ParseLine(line) == Some(e) <==>
            line == Line(e) && Free(e.date, ',') && Free(e.ttl, ',') && Free(e.path, ',')
  {
    LineIff(e);
    var f := Split(line, ',');
    SplitJoin(line, ',');
    if |f| == 3 {
      assert f[0] in f && f[1] in f && f[2] in f;
      assert f[1..][1..] == f[2..] && Join(f[2..], ',') == f[2];
      assert Join(f[1..], ',') == f[1] + [','] + f[2];
      assert line == Line(Entry(f[0], f[1], f[2]));
    }
  }

  /** Parsing the journal gives back exactly the committed entries, in order. */
  lemma {:induction false} RoundTrip(es: seq<Entry>)
    requires forall e :: e in es ==> Clean(e)
    ensures Parse(Text(es)) == es
  {
    if es == [] {
      assert Split("", '\n') == [""] && Split("", ',') == [""];
    } else {
      RoundTrip(es[1..]);
      assert Clean(es[0]) && Free(Line(es[0]), '\n');
      SplitFree(Line(es[0]), '\n');
      SplitAt(Line(es[0]), '\n', Text(es[1..]));
      var lines := Split(Text(es), '\n');
      assert Line(es[0]) + "\n" == Line(es[0]) + ['\n'];
      assert lines == [Line(es[0])] + Split(Text(es[1..]), '\n');
      assert lines[1..] == Split(Text(es[1..]), '\n');
      LineIff(es[0]);
    }
  }
}
