/** csvthis.py: turns a benchmark log into CSV lines. The log is cut at every
    "Running"; each non-empty piece gives one line of five ", "-separated
    fields, and the first piece that does not have the expected layout ends
    the output (the exception that raises is swallowed). Python's string
    methods are modelled on `string`; reading the file is a parameter. */
module CsvThis {
  import Launch

  /** sep occurs in s at index j. */
  predicate At(s: string, sep: string, j: nat)
  {
    j + |sep| <= |s| && s[j..j + |sep|] == sep
  }

  /** The first occurrence of sep in s at or after `from` (IndexOfFirst
      states what it finds). */
  function IndexOf(s: string, sep: string, from: nat): (r: Launch.Option<nat>)
    requires |sep| >= 1
    ensures r.Some? ==> from <= r.value && r.value + |sep| <= |s|
    decreases |s| - from
  {
    if from + |sep| > |s| then Launch.None
    else if At(s, sep, from) then Launch.Some(from)
    else IndexOf(s, sep, from + 1)
  }

  /** IndexOf finds an occurrence with none before it from `from` on, and
      None means there is none from `from` on. */
  lemma {:induction false} IndexOfFirst(s: string, sep: string, from: nat)
    requires |sep| >= 1
    ensures IndexOf(s, sep, from).Some? ==> At(s, sep, IndexOf(s, sep, from).value)
    ensures IndexOf(s, sep, from).Some? ==> forall j :: from <= j < IndexOf(s, sep, from).value ==> !At(s, sep, j)
    ensures IndexOf(s, sep, from).None? ==> forall j :: from <= j ==> !At(s, sep, j)
    decreases |s| - from
  {
    if from + |sep| <= |s| && !At(s, sep, from) {
      IndexOfFirst(s, sep, from + 1);
    }
  }

  /** An occurrence at n with none before it is the one IndexOf finds. */
  lemma IndexOfFinds(s: string, sep: string, n: nat)
    requires |sep| >= 1 && At(s, sep, n) && forall j :: 0 <= j < n ==> !At(s, sep, j)
    ensures IndexOf(s, sep, 0) == Launch.Some(n)
  {
    IndexOfFirst(s, sep, 0);
  }

  /** With no occurrence, IndexOf finds none. */
  lemma IndexOfNone(s: string, sep: string)
    requires |sep| >= 1 && forall j :: 0 <= j ==> !At(s, sep, j)
    ensures IndexOf(s, sep, 0).None?
  {
    IndexOfFirst(s, sep, 0);
  }

  /** str.split(sep): the pieces between the occurrences of sep, empty ones
      kept. */
  function Split(s: string, sep: string): (parts: seq<string>)
    requires |sep| >= 1
    ensures |parts| >= 1
    decreases |s|
  {
    match IndexOf(s, sep, 0)
    case None => [s]
    case Some(i) => [s[..i]] + Split(s[i + |sep|..], sep)
  }

  /** sep.join(parts). */
  function Join(parts: seq<string>, sep: string): string
    requires |parts| >= 1
  {
    if |parts| == 1 then parts[0] else parts[0] + sep + Join(parts[1..], sep)
  }

  /** Splitting loses nothing: joining the pieces gives the string back. */
  lemma {:induction false} SplitJoin(s: string, sep: string)
    requires |sep| >= 1
    ensures Join(Split(s, sep), sep) == s
    decreases |s|
  {
    var found := IndexOf(s, sep, 0);
    if found.Some? {
      var i := found.value;
      IndexOfFirst(s, sep, 0);
      SplitJoin(s[i + |sep|..], sep);
      SplitCons(s, sep, i);
      Rejoin(s, sep, i);
    }
  }

  /** Cutting s around an occurrence of sep at i and gluing it back. */
  lemma Rejoin(s: string, sep: string, i: nat)
    requires i + |sep| <= |s| && At(s, sep, i)
    ensures s[..i] + sep + s[i + |sep|..] == s
  {
    assert s[i..i + |sep|] == sep;
    assert s == s[..i] + s[i..i + |sep|] + s[i + |sep|..];
  }

  /** The split at the occurrence i IndexOf finds, and its join. */
  lemma SplitCons(s: string, sep: string, i: nat)
    requires |sep| >= 1 && IndexOf(s, sep, 0) == Launch.Some(i)
    ensures Split(s, sep) == [s[..i]] + Split(s[i + |sep|..], sep)
    ensures Join(Split(s, sep), sep) == s[..i] + sep + Join(Split(s[i + |sep|..], sep), sep)
  {
    var parts := Split(s, sep);
    assert parts[1..] == Split(s[i + |sep|..], sep);
  }

  /** No piece of a split on a one-character separator contains it. */
  lemma {:induction false} SplitPartsFree(s: string, sep: string)
    requires |sep| == 1
    ensures forall k, j :: 0 <= k < |Split(s, sep)| && 0 <= j < |Split(s, sep)[k]| ==> Split(s, sep)[k][j] != sep[0]
    decreases |s|
  {
    var parts := Split(s, sep);
    IndexOfFirst(s, sep, 0);
    match IndexOf(s, sep, 0)
    case None =>
      forall j | 0 <= j < |s| ensures s[j] != sep[0] {
        OneCharAt(s, sep, j);
      }
    case Some(i) =>
      SplitPartsFree(s[i + |sep|..], sep);
      forall j | 0 <= j < i ensures s[j] != sep[0] {
        OneCharAt(s, sep, j);
      }
      assert parts == [s[..i]] + Split(s[i + |sep|..], sep);
      forall k, j | 0 <= k < |parts| && 0 <= j < |parts[k]| ensures parts[k][j] != sep[0] {
        if k > 0 {
          assert parts[k] == Split(s[i + |sep|..], sep)[k - 1];
        }
      }
  }

  lemma OneCharAt(s: string, sep: string, j: nat)
    requires |sep| == 1 && j < |s|
    ensures At(s, sep, j) <==> s[j] == sep[0]
  {
    assert s[j..j + 1] == [s[j]];
    assert sep == [sep[0]];
  }

  /** The split at the first occurrence n. */
  lemma SplitAtFirst(s: string, sep: string, n: nat)
    requires |sep| >= 1 && At(s, sep, n) && forall j :: 0 <= j < n ==> !At(s, sep, j)
    ensures Split(s, sep) == [s[..n]] + Split(s[n + |sep|..], sep)
  {
    IndexOfFinds(s, sep, n);
    SplitCons(s, sep, n);
  }

  predicate NoSpace(w: string)
  {
    forall j :: 0 <= j < |w| ==> w[j] != ' '
  }

  /** Joining fields free of spaces with ", " splits back into those fields. */
  lemma {:induction false} JoinSplitFields(fs: seq<string>)
    requires |fs| >= 1 && forall k :: 0 <= k < |fs| ==> NoSpace(fs[k])
    ensures Split(Join(fs, ", "), ", ") == fs
    decreases |fs|
  {
    var s := Join(fs, ", ");
    if |fs| == 1 {
      assert s == fs[0];
      NoSeparatorIn(fs[0]);
    } else {
      var rest := Join(fs[1..], ", ");
      var n := |fs[0]|;
      SeparatorAfterWord(fs[0], rest);
      assert s == fs[0] + ", " + rest;
      JoinSplitFields(fs[1..]);
    }
  }

  /** In w + ", " + rest with w free of spaces, the first ", " follows w. */
  lemma SeparatorAfterWord(w: string, rest: string)
    requires NoSpace(w)
    ensures Split(w + ", " + rest, ", ") == [w] + Split(rest, ", ")
  {
    var s := w + ", " + rest;
    var n := |w|;
    assert s[n..n + 2] == ", ";
    forall j | 0 <= j < n ensures !At(s, ", ", j) {
      assert s[j + 1] != ' ';
      assert s[j..j + 2][1] == s[j + 1];
    }
    SplitAtFirst(s, ", ", n);
    assert s[..n] == w && s[n + 2..] == rest;
  }

  /** A string without spaces holds no ", ". */
  lemma NoSeparatorIn(w: string)
    requires NoSpace(w)
    ensures Split(w, ", ") == [w]
  {
    forall j | 0 <= j ensures !At(w, ", ", j) {
      if j + 2 <= |w| {
        assert w[j..j + 2][1] == w[j + 1];
      }
    }
    IndexOfNone(w, ", ");
  }

  /** str.partition(sep)[2]: what follows the first sep, or "" without one. */
  function After(s: string, sep: string): string
    requires |sep| >= 1
  {
    match IndexOf(s, sep, 0)
    case None => ""
    case Some(i) => s[i + |sep|..]
  }

  /** The characters str.strip() removes: Python's whitespace. */
  predicate IsSpace(c: char)
  {
    c == ' ' || '\t' <= c <= '\r' || '\U{1C}' <= c <= '\U{1F}' || c == '\U{85}' || c == '\U{A0}' ||
    c == '\U{1680}' || '\U{2000}' <= c <= '\U{200A}' || c == '\U{2028}' || c == '\U{2029}' ||
    c == '\U{202F}' || c == '\U{205F}' || c == '\U{3000}'
  }

  function StripStart(s: string): (r: string)
    ensures |r| <= |s|
  {
    if s != [] && IsSpace(s[0]) then StripStart(s[1..]) else s
  }

  /** lstrip drops the leading whitespace and nothing else. */
  lemma {:induction false} StripStartSpec(s: string)
    ensures StripStart(s) == s[|s| - |StripStart(s)|..]
    ensures StripStart(s) != [] ==> !IsSpace(StripStart(s)[0])
    ensures forall k :: 0 <= k < |s| - |StripStart(s)| ==> IsSpace(s[k])
  {
    if s != [] && IsSpace(s[0]) {
      StripStartSpec(s[1..]);
    }
  }

  function StripEnd(s: string): (r: string)
    ensures |r| <= |s|
  {
    if s != [] && IsSpace(s[|s| - 1]) then StripEnd(s[..|s| - 1]) else s
  }

  /** rstrip drops the trailing whitespace and nothing else. */
  lemma {:induction false} StripEndSpec(s: string)
    ensures StripEnd(s) == s[..|StripEnd(s)|]
    ensures StripEnd(s) != [] ==> !IsSpace(StripEnd(s)[|StripEnd(s)| - 1])
    ensures forall k :: |StripEnd(s)| <= k < |s| ==> IsSpace(s[k])
  {
    if s != [] && IsSpace(s[|s| - 1]) {
      StripEndSpec(s[..|s| - 1]);
    }
  }

  /** str.strip(). */
  function Strip(s: string): string
  {
    StripEnd(StripStart(s))
  }

  /** strip leaves the slice of s with no whitespace at either end, all that
      it drops being whitespace. */
  lemma StripTrims(s: string)
    ensures var r := Strip(s);
      (r != [] ==> !IsSpace(r[0]) && !IsSpace(r[|r| - 1])) &&
      exists a, b :: (0 <= a <= b <= |s| && r == s[a..b] &&
        (forall k :: 0 <= k < a ==> IsSpace(s[k])) && (forall k :: b <= k < |s| ==> IsSpace(s[k])))
  {
    var front := StripStart(s);
    var r := StripEnd(front);
    StripStartSpec(s);
    StripEndSpec(front);
    var a := |s| - |front|;
    assert r == s[a..a + |r|];
    if r != [] {
      assert r[0] == front[0];
    }
  }

  /** [g for g in pieces if g]. */
  function NonEmpty(pieces: seq<string>): (r: seq<string>)
    ensures forall k :: 0 <= k < |r| ==> r[k] != ""
    ensures |r| <= |pieces|
  {
    if pieces == [] then []
    else (if pieces[0] != "" then [pieces[0]] else []) + NonEmpty(pieces[1..])
  }

  /** The pieces the loop visits. */
  function Groups(contents: string): seq<string>
  {
    NonEmpty(Split(contents, "Running"))
  }

  /** The five fields of a piece's line, or None where the script raises:
      fewer than four lines after the first "/", or line 2 or line 3 without a
      ":". Fields: first and last space-token of the first line, the file name
      up to its first "/", and the first space-token of the stripped text
      after the first ":" of lines 2 and 3. */
  function Fields(group: string, filename: string): (r: Launch.Option<seq<string>>)
    ensures r.Some? ==> |r.value| == 5
  {
    var lines := Split(After(group, "/"), "\n");
    var ws := Split(lines[0], " ");
    if |lines| < 4 then Launch.None
    else
      var tp := Split(lines[2], ":");
      var gp := Split(lines[3], ":");
      if |tp| < 2 || |gp| < 2 then Launch.None
      else Launch.Some([ws[0], ws[|ws| - 1], Split(filename, "/")[0],
                        Split(Strip(tp[1]), " ")[0], Split(Strip(gp[1]), " ")[0]])
  }

  function Row(group: string, filename: string): Launch.Option<string>
  {
    match Fields(group, filename)
    case None => Launch.None
    case Some(fs) => Launch.Some(Join(fs, ", "))
  }

  /** The lines printed for the pieces gs: one per piece up to the first piece
      whose line raises. */
  function Printed(gs: seq<string>, filename: string): seq<string>
  {
    if gs == [] then []
    else match Row(gs[0], filename)
      case None => []
      case Some(line) => [line] + Printed(gs[1..], filename)
  }

  /** The output is the lines of the longest run of good pieces from the
      start: line k belongs to piece k, and when output stops early the next
      piece is the one that raised. */
  lemma {:induction false} PrintedStopsAtFirstFailure(gs: seq<string>, filename: string)
    ensures |Printed(gs, filename)| <= |gs|
    ensures forall k :: 0 <= k < |Printed(gs, filename)| ==>
      Row(gs[k], filename) == Launch.Some(Printed(gs, filename)[k])
    ensures |Printed(gs, filename)| < |gs| ==> Row(gs[|Printed(gs, filename)|], filename).None?
    decreases |gs|
  {
    if gs != [] && Row(gs[0], filename).Some? {
      PrintedStopsAtFirstFailure(gs[1..], filename);
      var p := Printed(gs, filename);
      assert p == [Row(gs[0], filename).value] + Printed(gs[1..], filename);
      forall k | 0 < k < |p| ensures Row(gs[k], filename) == Launch.Some(p[k]) {
        assert gs[1..][k - 1] == gs[k];
      }
    }
  }

  /** Fields 1, 2, 4 and 5 are space-tokens, so with a directory name free of
      spaces every printed line splits back into exactly its five fields. */
  lemma RowHasFiveFields(group: string, filename: string)
    requires Row(group, filename).Some? && NoSpace(Split(filename, "/")[0])
    ensures Split(Row(group, filename).value, ", ") == Fields(group, filename).value
    ensures |Split(Row(group, filename).value, ", ")| == 5
  {
    var fs := Fields(group, filename).value;
    var lines := Split(After(group, "/"), "\n");
    var ws := Split(lines[0], " ");
    SplitPartsFree(lines[0], " ");
    SplitPartsFree(Strip(Split(lines[2], ":")[1]), " ");
    SplitPartsFree(Strip(Split(lines[3], ":")[1]), " ");
    assert NoSpace(fs[0]) && NoSpace(fs[1]) && NoSpace(fs[3]) && NoSpace(fs[4]);
    JoinSplitFields(fs);
  }

  lemma JoinFive(fs: seq<string>)
    requires |fs| == 5
    ensures Join(fs, ", ") == fs[0] + ", " + fs[1] + ", " + fs[2] + ", " + fs[3] + ", " + fs[4]
  {
    assert Join(fs[4..], ", ") == fs[4];
    assert fs[3..][1..] == fs[4..];
    assert Join(fs[3..], ", ") == fs[3] + ", " + fs[4];
    assert fs[2..][1..] == fs[3..];
    assert Join(fs[2..], ", ") == fs[2] + ", " + fs[3] + ", " + fs[4];
    assert fs[1..][1..] == fs[2..];
    assert Join(fs[1..], ", ") == fs[1] + ", " + fs[2] + ", " + fs[3] + ", " + fs[4];
  }

  /** The line the script builds once every index and split has succeeded. */
  lemma RowOfGoodGroup(group: string, filename: string, lines: seq<string>, tp: seq<string>, gp: seq<string>)
    requires lines == Split(After(group, "/"), "\n") && |lines| >= 4
    requires tp == Split(lines[2], ":") && gp == Split(lines[3], ":") && |tp| >= 2 && |gp| >= 2
    ensures var ws := Split(lines[0], " ");
      Row(group, filename) == Launch.Some(ws[0] + ", " + ws[|ws| - 1] + ", " + Split(filename, "/")[0] + ", " +
        Split(Strip(tp[1]), " ")[0] + ", " + Split(Strip(gp[1]), " ")[0])
  {
    JoinFive(Fields(group, filename).value);
  }

  /** The script raises on the piece: too few lines or a missing ':'. */
  lemma RowOfBadGroup(group: string, filename: string, lines: seq<string>)
    requires lines == Split(After(group, "/"), "\n")
    requires |lines| < 4 || |Split(lines[2], ":")| < 2 || |Split(lines[3], ":")| < 2
    ensures Row(group, filename).None?
  {
  }

  /** Printed unfolded at position i. */
  lemma PrintedAt(gs: seq<string>, i: nat, filename: string)
    requires i < |gs|
    ensures Printed(gs[i..], filename) ==
      if Row(gs[i], filename).None? then [] else [Row(gs[i], filename).value] + Printed(gs[i + 1..], filename)
  {
    assert gs[i..][0] == gs[i] && gs[i..][1..] == gs[i + 1..];
  }

  /** One pass of the loop body: the line built for the piece, or None when
      an index or an unpacking raises. */
  method GroupLine(group: string, filename: string) returns (line: Launch.Option<string>)
    ensures line == Row(group, filename)
  {
    var lines := Split(After(group, "/"), "\n");
    var ws := Split(lines[0], " ");
    var output := ws[0] + ", " + ws[|ws| - 1] + ", " + Split(filename, "/")[0] + ", ";
    if |lines| < 4 {
      RowOfBadGroup(group, filename, lines);
      return Launch.None;
    }
    var t, g := lines[2], lines[3];
    var tp := Split(t, ":");
    if |tp| < 2 {
      RowOfBadGroup(group, filename, lines);
      return Launch.None;
    }
    output := output + Split(Strip(tp[1]), " ")[0] + ", ";
    var gp := Split(g, ":");
    if |gp| < 2 {
      RowOfBadGroup(group, filename, lines);
      return Launch.None;
    }
    output := output + Split(Strip(gp[1]), " ")[0];
    RowOfGoodGroup(group, filename, lines, tp, gp);
    line := Launch.Some(output);
  }

  /** The script: contents is the file's text, None when opening or reading
      it raises (then nothing is printed). Returns the printed lines. */
  method CsvLines(contents: Launch.Option<string>, filename: string) returns (printed: seq<string>)
    ensures contents.None? ==> printed == []
    ensures contents.Some? ==> printed == Printed(Groups(contents.value), filename)
  {
    printed := [];
    if contents.None? {
      return;
    }
    var groups := Groups(contents.value);
    var i := 0;
    while i < |groups|
      invariant 0 <= i <= |groups|
      invariant printed + Printed(groups[i..], filename) == Printed(groups, filename)
    {
      PrintedAt(groups, i, filename);
      var line := GroupLine(groups[i], filename);
      if line.None? {
        return;
      }
      printed := printed + [line.value];
      i := i + 1;
    }
    assert groups[i..] == [];
  }
}
