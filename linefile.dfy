/** The text files of the script: `wiktionary.txt` and `abbreviations.txt`
    are written one entry per line, each followed by '\n'; `add.txt` and
    `remove.txt` are read with `split('\n')`, after which the last piece is
    dropped unconditionally with `pop()`. */
module LineFile {

  /** Python's `text.split('\n')`: the pieces between newlines, always at
      least one. */
  function Split(t: string): (r: seq<string>)
    ensures |r| >= 1
    ensures forall i :: 0 <= i < |r| ==> '\n' !in r[i]
    decreases |t|
  {
    if t == [] then [""]
    else
      var rest := Split(t[1..]);
      if t[0] == '\n' then [""] + rest
      else [[t[0]] + rest[0]] + rest[1..]
  }

  /** Python's `'\n'.join(lines)`. */
  function Join(lines: seq<string>): string
  {
    if lines == [] then ""
    else if |lines| == 1 then lines[0]
    else lines[0] + "\n" + Join(lines[1..])
  }

  /** Splitting and joining again gives back the text. */
  lemma {:induction false} JoinSplit(t: string)
    ensures Join(Split(t)) == t
    decreases |t|
  {
    if t != [] {
      JoinSplit(t[1..]);
      var rest := Split(t[1..]);
      if t[0] == '\n' {
        assert t == "\n" + t[1..];
      } else if |rest| == 1 {
        assert t == [t[0]] + t[1..];
      } else {
        assert Split(t)[1..] == rest[1..];
        assert t == [t[0]] + t[1..];
      }
    }
  }

  /** Splitting text that starts with a newline-free piece. */
  lemma {:induction false} SplitAfterPiece(x: string, t: string)
    requires '\n' !in x
    ensures Split(x + t) == [x + Split(t)[0]] + Split(t)[1..]
    decreases |x|
  {
    if x != [] {
      SplitAfterPiece(x[1..], t);
      var s := Split(t);
      var rest := Split(x[1..] + t);
      assert (x + t)[0] == x[0] && x[0] != '\n';
      assert (x + t)[1..] == x[1..] + t;
      assert rest[0] == x[1..] + s[0] && rest[1..] == s[1..];
      assert [x[0]] + (x[1..] + s[0]) == x + s[0];
    } else {
      var s := Split(t);
      assert x + t == t && x + s[0] == s[0];
      assert s == [s[0]] + s[1..];
    }
  }

  /** Joining newline-free lines and splitting again gives back the lines. */
  lemma {:induction false} SplitJoin(lines: seq<string>)
    requires |lines| >= 1
    requires forall i :: 0 <= i < |lines| ==> '\n' !in lines[i]
    ensures Split(Join(lines)) == lines
  {
    if |lines| == 1 {
      SplitAfterPiece(lines[0], "");
      assert lines[0] + "" == lines[0];
    } else {
      SplitJoin(lines[1..]);
      var t := Join(lines[1..]);
      assert Join(lines) == lines[0] + ("\n" + t);
      SplitAfterPiece(lines[0], "\n" + t);
      assert ("\n" + t)[1..] == t;
      assert Split("\n" + t) == [""] + lines[1..];
      assert lines[0] + "" == lines[0];
      assert lines == [lines[0]] + lines[1..];
    }
  }

  /** What the write loops of the script put in a file: every entry
      followed by a newline. */
  function Encode(entries: seq<string>): (r: string)
    ensures entries != [] ==> |r| > 0 && r[|r| - 1] == '\n'
  {
    if entries == [] then "" else entries[0] + "\n" + Encode(entries[1..])
  }

  /** A file written from entries without newlines has one line per entry:
      it holds exactly as many newlines as there are entries. */
  lemma {:induction false} EncodeCountsLines(entries: seq<string>)
    requires forall i :: 0 <= i < |entries| ==> '\n' !in entries[i]
    ensures multiset(Encode(entries))['\n'] == |entries|
  {
    if entries != [] {
      EncodeCountsLines(entries[1..]);
      assert multiset(entries[0])['\n'] == 0;
      assert Encode(entries) == entries[0] + "\n" + Encode(entries[1..]);
      assert multiset(Encode(entries)) == multiset(entries[0]) + multiset("\n") + multiset(Encode(entries[1..]));
    }
  }

  /** How the script reads `add.txt` and `remove.txt`: `split('\n')`, then
      `pop()` of the last piece, whatever it is. The lines read are those
      that end in a newline: written back they give the text up to its last
      newline, and what follows that newline is lost. */
  function ReadLines(text: string): (r: seq<string>)
    ensures forall i :: 0 <= i < |r| ==> '\n' !in r[i]
    ensures exists tail :: '\n' !in tail && text == Encode(r) + tail
  {
    var lines := Split(text);
    var r := lines[..|lines| - 1];
    var last := lines[|lines| - 1];
    assert lines == r + [last];
    JoinSplit(text);
    EncodeThenTail(r, last);
    r
  }

  /** A written file followed by any newline-free tail is the join of the
      entries and that tail. */
  lemma {:induction false} EncodeThenTail(entries: seq<string>, tail: string)
    ensures Encode(entries) + tail == Join(entries + [tail])
  {
    if entries != [] {
      EncodeThenTail(entries[1..], tail);
      assert (entries + [tail])[1..] == entries[1..] + [tail];
      assert Encode(entries) + tail == entries[0] + "\n" + (Encode(entries[1..]) + tail);
    }
  }

  /** Reading a written file gives back the entries, provided none of them
      holds a newline, and whatever follows the last newline is dropped: a
      final entry without its trailing newline is lost. */
  lemma ReadDropsUnterminatedLine(entries: seq<string>, tail: string)
    requires forall i :: 0 <= i < |entries| ==> '\n' !in entries[i]
    requires '\n' !in tail
    ensures ReadLines(Encode(entries) + tail) == entries
  {
    EncodeThenTail(entries, tail);
    var lines := entries + [tail];
    assert forall i :: 0 <= i < |lines| ==> '\n' !in lines[i];
    SplitJoin(lines);
    assert lines[..|entries|] == entries;
  }

  /** Reading inverts writing, for entries without newlines. */
  lemma ReadInvertsWrite(entries: seq<string>)
    requires forall i :: 0 <= i < |entries| ==> '\n' !in entries[i]
    ensures ReadLines(Encode(entries)) == entries
  {
    ReadDropsUnterminatedLine(entries, "");
    assert Encode(entries) + "" == Encode(entries);
  }

  lemma {:induction false} EncodeAppend(entries: seq<string>, e: string)
    ensures Encode(entries + [e]) == Encode(entries) + e + "\n"
  {
    if entries != [] {
      EncodeAppend(entries[1..], e);
      assert (entries + [e])[1..] == entries[1..] + [e];
    }
  }

  /** The write loop `for e in entries: fout.write(e + '\n')`, returning
      what ends up in the file. */
  method WriteLines(entries: seq<string>) returns (text: string)
    ensures text == Encode(entries)
  {
    text := "";
    for i := 0 to |entries|
      invariant text == Encode(entries[..i])
    {
      EncodeAppend(entries[..i], entries[i]);
      assert entries[..i + 1] == entries[..i] + [entries[i]];
      text := text + (entries[i] + "\n");
    }
    assert entries[..|entries|] == entries;
  }
}
