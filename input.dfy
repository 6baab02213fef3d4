/** `load_usernames`: the usernames file read as a list of stripped, non-blank
    lines, in file order; a missing file reads as no usernames. */
module Input {
  import opened Text

  /** What a loaded username looks like: non-empty, no whitespace at either
      end, and no line break or carriage return inside. */
  predicate IsUsername(u: string) {
    u != [] && IsStripped(u) && '\n' !in u && '\r' !in u
  }

  /** The list comprehension over the file's lines: each line stripped, the
      blank ones dropped, the order kept. */
  function Usernames(lines: seq<string>): (names: seq<string>)
    ensures |names| <= |lines|
  {
    if lines == [] then []
    else
      var name := Strip(lines[0]);
      if name == [] then Usernames(lines[1..]) else [name] + Usernames(lines[1..])
  }

  /** Every username taken from whole lines is well formed. */
  lemma UsernamesAreWellFormed(lines: seq<string>)
    requires forall i | 0 <= i < |lines| :: IsLine(lines[i]) && '\r' !in lines[i]
    ensures forall i | 0 <= i < |Usernames(lines)| :: IsUsername(Usernames(lines)[i])
  {
    forall i | 0 <= i < |Usernames(lines)| ensures IsUsername(Usernames(lines)[i]) {
      var j := UsernameSource(lines, i);
      StripIsStripped(lines[j]);
      StrippedLineHasNoBreak(lines[j]);
      StripLacks(lines[j], '\r');
    }
  }

  /** Each username is a line of the file, stripped, and not empty. */
  lemma {:induction false} UsernameSource(lines: seq<string>, i: nat) returns (j: nat)
    requires i < |Usernames(lines)|
    ensures j < |lines| && Usernames(lines)[i] == Strip(lines[j]) != []
  {
    var name, rest := Strip(lines[0]), Usernames(lines[1..]);
    if name == [] {
      assert Usernames(lines) == rest;
      j := UsernameSource(lines[1..], i);
      j := j + 1;
    } else {
      assert Usernames(lines) == [name] + rest;
      if i == 0 {
        j := 0;
      } else {
        j := UsernameSource(lines[1..], i - 1);
        j := j + 1;
      }
    }
  }

  /** The usernames loaded from `path` of the file system `files`, read in
      text mode; `[]` when the file does not exist. */
  function LoadUsernames(files: map<string, string>, path: string): (names: seq<string>)
    ensures path !in files ==> names == []
    ensures forall i | 0 <= i < |names| :: IsUsername(names[i])
    ensures path in files ==> |names| <= |Lines(Universal(files[path]))|
  {
    if path in files then
      var text := Universal(files[path]);
      UniversalNoReturn(files[path]);
      LinesShape(text);
      forall i | 0 <= i < |Lines(text)| ensures '\r' !in Lines(text)[i] {
        LineLacks(text, i, '\r');
      }
      UsernamesAreWellFormed(Lines(text));
      Usernames(Lines(text))
    else
      []
  }

  /** Stripping a line removes its newline. */
  lemma StrippedLineHasNoBreak(l: string)
    requires IsLine(l)
    ensures '\n' !in Strip(l)
  {
    var r, k := Strip(l), Lead(l);
    StripSlice(l);
    StripIsStripped(l);
    forall j | 0 <= j < |r| ensures r[j] != '\n' {
      assert r[j] == l[k + j];
      if k + j == |l| - 1 {
        assert j == |r| - 1;
      }
    }
  }

  /** Order is kept: the usernames of two runs of lines are those of the first
      followed by those of the second. */
  lemma {:induction false} UsernamesAppend(a: seq<string>, b: seq<string>)
    ensures Usernames(a + b) == Usernames(a) + Usernames(b)
  {
    if a == [] {
      assert a + b == b;
    } else {
      assert (a + b)[0] == a[0] && (a + b)[1..] == a[1..] + b;
      UsernamesAppend(a[1..], b);
    }
  }

  /** A single line contributes its stripped text, unless that is empty. */
  lemma UsernamesOfLine(l: string)
    ensures Usernames([l]) == if AllSpace(l) then [] else [Strip(l)]
  {
    StripParts(l);
    assert [l][1..] == [];
  }

  /** A file cut after a newline loads as its first part followed by its
      second: the usernames of `a + b` are those of a file holding `a`, then
      those of a file holding `b`. */
  lemma LoadAppend(files: map<string, string>, path: string, a: string, b: string)
    requires path in files && files[path] == a + b
    requires a == [] || Terminated(a)
    ensures LoadUsernames(files, path) == LoadUsernames(map[path := a], path) + LoadUsernames(map[path := b], path)
  {
    if a == [] {
      assert a + b == b;
    } else {
      UniversalAppend(a, b);
      UniversalTerminated(a);
      LinesAppend(Universal(a), Universal(b));
      UsernamesAppend(Lines(Universal(a)), Lines(Universal(b)));
    }
  }

  /** The line written for `u`: the username followed by a newline. */
  function Record(u: string): (line: string)
    ensures |line| == |u| + 1 && line[..|u|] == u && line[|u|] == '\n'
  {
    u + "\n"
  }

  function Records(names: seq<string>): (records: seq<string>)
    ensures |records| == |names|
    ensures forall i | 0 <= i < |names| :: records[i] == Record(names[i])
  {
    seq(|names|, i requires 0 <= i < |names| => Record(names[i]))
  }

  lemma StripRecord(u: string)
    requires IsUsername(u)
    ensures Strip(Record(u)) == u
  {
    var s := Record(u);
    assert Lead(s) == 0;
    assert s[..|s| - 1] == u;
    assert Trail(s) == 1;
  }

  /** Reading back a file written as one record per username gives the same
      usernames, in the same order. */
  lemma {:induction false} ReloadRecords(names: seq<string>)
    requires forall i | 0 <= i < |names| :: IsUsername(names[i])
    ensures Usernames(Lines(Join(Records(names)))) == names
  {
    var records := Records(names);
    assert forall i | 0 <= i < |records| :: records[i] == Record(names[i]);
    LinesOfJoin(records);
    ReloadLines(names);
  }

  lemma {:induction false} ReloadLines(names: seq<string>)
    requires forall i | 0 <= i < |names| :: IsUsername(names[i])
    ensures Usernames(Records(names)) == names
  {
    if names != [] {
      var records := Records(names);
      StripRecord(names[0]);
      assert records[0] == Record(names[0]) && records[1..] == Records(names[1..]);
      assert Usernames(records) == [names[0]] + Usernames(records[1..]);
      ReloadLines(names[1..]);
    }
  }

  /** A file written as one record per username, for usernames that were
      loaded, loads back as exactly those usernames, in order. */
  lemma ReloadFile(files: map<string, string>, path: string, names: seq<string>)
    requires forall i | 0 <= i < |names| :: IsUsername(names[i])
    requires path in files && files[path] == Join(Records(names))
    ensures LoadUsernames(files, path) == names
  {
    RecordsLack(names);
    UniversalPlain(files[path]);
    ReloadRecords(names);
  }

  /** No carriage return is written for usernames that were loaded. */
  lemma {:induction false} RecordsLack(names: seq<string>)
    requires forall i | 0 <= i < |names| :: IsUsername(names[i])
    ensures '\r' !in Join(Records(names))
  {
    if names != [] {
      var records := Records(names);
      assert records[0] == Record(names[0]) && records[1..] == Records(names[1..]);
      assert Join(records) == Record(names[0]) + Join(Records(names[1..]));
      RecordsLack(names[1..]);
    }
  }
}
