/**
 * The text form of a collision-avoidance state,
 *   "(index:<i> (<x>,<y>), {<o0>,<o1>,...,<on-1>})",
 * the loop that builds it, and a reader proving that the text determines
 * the state's index, position and obstacles.
 */
module StateText {
  import opened Outcomes
  import opened Decimal
  import opened Domains

  /** Each obstacle written out and followed by a comma: "o0,o1,...,". */
  function CommaTerminated(xs: seq<int>): string
  {
    if xs == [] then "" else CommaTerminated(xs[..|xs| - 1]) + IntToString(xs[|xs| - 1]) + ","
  }

  /** The obstacles separated by commas: "o0,...,on-1". */
  function CommaSeparated(xs: seq<int>): string
    requires |xs| > 0
  {
    CommaTerminated(xs[..|xs| - 1]) + IntToString(xs[|xs| - 1])
  }

  /** The text `toString` produces for a state. */
  function Show(s: CollisionAvoidanceState): (r: string)
    requires |s.obstacles| > 0
    ensures |r| > 14 && r[..7] == "(index:" && r[|r| - 2..] == "})"
  {
    var i, x, y, l := IntToString(s.index), IntToString(s.xAgent), IntToString(s.yAgent), CommaSeparated(s.obstacles);
    ShowFrame(i, x, y, l);
    "(index:" + i + " (" + x + "," + y + "), {" + l + "})"
  }

  /** The state text opens with its index label and closes the obstacle set and the tuple. */
  lemma ShowFrame(i: string, x: string, y: string, l: string)
    requires |i| > 0 && |x| > 0 && |y| > 0 && |l| > 0
    ensures var r := "(index:" + i + " (" + x + "," + y + "), {" + l + "})";
      |r| > 14 && r[..7] == "(index:" && r[|r| - 2..] == "})"
  {
    var r := "(index:" + i + " (" + x + "," + y + "), {" + l + "})";
    var front := "(index:" + i + " (" + x + "," + y + "), {" + l;
    assert r == front + "})";
    assert r[|r| - 2..] == "})";
  }

  /**
   * `toString`: the obstacle list is built by appending each obstacle but the
   * last with a trailing comma, then the last one. The obstacle list must not
   * be empty (the last obstacle is always read).
   */
  method ToString(s: CollisionAvoidanceState) returns (r: string)
    requires |s.obstacles| > 0
    ensures r == Show(s)
  {
    var obsts := "{";
    var n := |s.obstacles|;
    for i := 0 to n - 1
      invariant obsts == "{" + CommaTerminated(s.obstacles[..i])
    {
      var done := s.obstacles[..i + 1];
      assert done[..i] == s.obstacles[..i];
      var before, item := CommaTerminated(s.obstacles[..i]), IntToString(s.obstacles[i]);
      assert CommaTerminated(done) == before + item + ",";
      obsts := obsts + item + ",";
      Assoc("{", before, item);
      Assoc("{", before + item, ",");
    }
    var head := "(index:" + IntToString(s.index) + " (" + IntToString(s.xAgent) + ","
                + IntToString(s.yAgent);
    var last := IntToString(s.obstacles[n - 1]);
    r := head + "), " + obsts + last + "})";
    assert s.obstacles[..n - 1] == s.obstacles[..|s.obstacles| - 1];
    ShowShape(head, CommaTerminated(s.obstacles[..n - 1]), last);
  }

  lemma ShowShape(head: string, init: string, last: string)
    ensures head + "), " + ("{" + init) + last + "})" == head + "), {" + (init + last) + "})"
  {
  }

  // ---------------------------------------------------------------------
  // Reading the text back
  // ---------------------------------------------------------------------

  /** Splits at the first occurrence of `c`: the text before it and the text after it. */
  function SplitAt(s: string, c: char): (r: Option<(string, string)>)
    ensures r.Some? ==> s == r.value.0 + [c] + r.value.1 && c !in r.value.0
    ensures r.None? <==> c !in s
  {
    if s == [] then None
    else if s[0] == c then Some(([], s[1..]))
    else
      var p :- SplitAt(s[1..], c);
      assert s == [s[0]] + s[1..];
      Some(([s[0]] + p.0, p.1))
  }

  /** Strips `prefix` off the front of `s`. */
  function Expect(prefix: string, s: string): (r: Option<string>)
    ensures r.Some? ==> s == prefix + r.value
  {
    if prefix <= s then Some(s[|prefix|..]) else None
  }

  datatype Fields = Fields(index: int, x: int, y: int, obstacles: seq<int>)

  /** Reads "v0,v1,...,vk" with at least one value. */
  function ParseList(s: string): Option<seq<int>>
    decreases |s|
  {
    match SplitAt(s, ',')
    case None =>
      var v :- ParseInt(s);
      Some([v])
    case Some(p) =>
      var v :- ParseInt(p.0);
      var vs :- ParseList(p.1);
      Some([v] + vs)
  }

  function ParseState(text: string): Option<Fields>
  {
    var afterTag :- Expect("(index:", text);
    var indexPart :- SplitAt(afterTag, ' ');
    var afterOpen :- Expect("(", indexPart.1);
    var xPart :- SplitAt(afterOpen, ',');
    var yPart :- SplitAt(xPart.1, ')');
    var afterBrace :- Expect(", {", yPart.1);
    var listPart :- SplitAt(afterBrace, '}');
    if listPart.1 != ")" then None
    else
      var index :- ParseInt(indexPart.0);
      var x :- ParseInt(xPart.0);
      var y :- ParseInt(yPart.0);
      var obstacles :- ParseList(listPart.0);
      Some(Fields(index, x, y, obstacles))
  }

  lemma {:induction false} SplitAtFirst(a: string, c: char, b: string)
    requires c !in a
    ensures SplitAt(a + [c] + b, c) == Some((a, b))
  {
    if a != [] {
      assert (a + [c] + b)[1..] == a[1..] + [c] + b;
      SplitAtFirst(a[1..], c, b);
      assert a == [a[0]] + a[1..];
    } else {
      assert a + [c] + b == [c] + b;
    }
  }

  lemma ExpectPrefix(prefix: string, rest: string)
    ensures Expect(prefix, prefix + rest) == Some(rest)
  {
    assert (prefix + rest)[|prefix|..] == rest;
  }

  lemma NumeralSeparators(i: int)
    ensures ' ' !in IntToString(i) && ',' !in IntToString(i) && ')' !in IntToString(i)
    ensures '}' !in IntToString(i)
  {
    IntToStringChars(i);
  }

  lemma Assoc(a: string, b: string, c: string)
    ensures (a + b) + c == a + (b + c)
  {
  }

  /** The comma-terminated list read from the front: its first value comes first. */
  lemma {:induction false} CommaTerminatedCons(x: int, xs: seq<int>)
    ensures CommaTerminated([x] + xs) == IntToString(x) + "," + CommaTerminated(xs)
    decreases |xs|
  {
    var ys := [x] + xs;
    if xs == [] {
      assert ys[..0] == [];
      assert CommaTerminated(ys) == "" + IntToString(x) + ",";
    } else {
      var n := |xs|;
      var init := xs[..n - 1];
      assert ys[..n] == [x] + init;
      assert ys[n] == xs[n - 1];
      CommaTerminatedCons(x, init);
      var a, b, c := IntToString(x) + ",", CommaTerminated(init), IntToString(xs[n - 1]) + ",";
      assert CommaTerminated(ys) == (a + b) + c;
      assert CommaTerminated(xs) == b + c;
      Assoc(a, b, c);
    }
  }

  lemma CommaSeparatedCons(x: int, xs: seq<int>)
    requires |xs| > 0
    ensures CommaSeparated([x] + xs) == IntToString(x) + "," + CommaSeparated(xs)
  {
    var ys := [x] + xs;
    var n := |xs|;
    var init := xs[..n - 1];
    assert ys[..n] == [x] + init;
    assert ys[n] == xs[n - 1];
    CommaTerminatedCons(x, init);
    var a, b, c := IntToString(x) + ",", CommaTerminated(init), IntToString(xs[n - 1]);
    assert CommaSeparated(ys) == (a + b) + c;
    assert CommaSeparated(xs) == b + c;
    Assoc(a, b, c);
  }

  /** A comma-separated list holds digits, '-' and commas only. */
  lemma {:induction false} CommaSeparatedNoBrace(xs: seq<int>)
    requires |xs| > 0
    ensures '}' !in CommaSeparated(xs)
    decreases |xs|
  {
    var head := IntToString(xs[0]);
    NumeralSeparators(xs[0]);
    if |xs| > 1 {
      var tail := xs[1..];
      assert xs == [xs[0]] + tail;
      CommaSeparatedCons(xs[0], tail);
      CommaSeparatedNoBrace(tail);
      assert CommaSeparated(xs) == (head + ",") + CommaSeparated(tail);
      assert '}' !in head + ",";
    } else {
      assert xs[..0] == [];
      assert CommaSeparated(xs) == head;
    }
  }

  /** Reading a comma-separated list gives back the values. */
  lemma {:induction false} ParseListCommaSeparated(xs: seq<int>)
    requires |xs| > 0
    ensures ParseList(CommaSeparated(xs)) == Some(xs)
    decreases |xs|
  {
    NumeralSeparators(xs[0]);
    ParseIntToString(xs[0]);
    if |xs| == 1 {
      assert xs[..0] == [];
      var text := IntToString(xs[0]);
      assert CommaSeparated(xs) == text;
      assert SplitAt(text, ',') == None;
      assert ParseInt(text) == Some(xs[0]);
      assert ParseList(text) == Some([xs[0]]);
      assert [xs[0]] == xs;
    } else {
      var rest := xs[1..];
      assert xs == [xs[0]] + rest;
      CommaSeparatedCons(xs[0], rest);
      SplitAtFirst(IntToString(xs[0]), ',', CommaSeparated(rest));
      assert IntToString(xs[0]) + "," + CommaSeparated(rest)
          == IntToString(xs[0]) + [','] + CommaSeparated(rest);
      ParseListCommaSeparated(rest);
    }
  }

  /** The text of a state, cut at the separators the reader looks for. */
  lemma ShowSeparators(i: string, x: string, y: string, l: string)
    ensures "(index:" + i + " (" + x + "," + y + "), {" + l + "})"
         == "(index:" + (i + [' '] + ("(" + (x + [','] + (y + [')'] + (", {" + (l + ['}'] + ")"))))))
  {
  }

  /** The text of a state determines its index, position and obstacles. */
  lemma ParseShow(s: CollisionAvoidanceState)
    requires |s.obstacles| > 0
    ensures ParseState(Show(s)) == Some(Fields(s.index, s.xAgent, s.yAgent, s.obstacles))
  {
    var i, x, y := IntToString(s.index), IntToString(s.xAgent), IntToString(s.yAgent);
    var l := CommaSeparated(s.obstacles);
    NumeralSeparators(s.index);
    NumeralSeparators(s.xAgent);
    NumeralSeparators(s.yAgent);
    CommaSeparatedNoBrace(s.obstacles);

    var afterList := ")";
    var afterBrace := l + ['}'] + afterList;
    var afterY := ", {" + afterBrace;
    var afterX := y + [')'] + afterY;
    var afterOpen := x + [','] + afterX;
    var afterIndex := "(" + afterOpen;
    var afterTag := i + [' '] + afterIndex;
    ShowSeparators(i, x, y, l);
    assert Show(s) == "(index:" + afterTag;
    ExpectPrefix("(index:", afterTag);
    SplitAtFirst(i, ' ', afterIndex);
    ExpectPrefix("(", afterOpen);
    SplitAtFirst(x, ',', afterX);
    SplitAtFirst(y, ')', afterY);
    ExpectPrefix(", {", afterBrace);
    SplitAtFirst(l, '}', afterList);
    ParseIntToString(s.index);
    ParseIntToString(s.xAgent);
    ParseIntToString(s.yAgent);
    ParseListCommaSeparated(s.obstacles);
  }
}
