/** The two pieces of java.lang.String behaviour the portfolio code relies
    on: `split(",")` and `matches("^[A-Z]*$")`. */
module JavaText {

  predicate IsUpperLetter(c: char) {
    'A' <= c <= 'Z'
  }

  /** Whether `s` as a whole matches the regular expression ^[A-Z]*$, as
      `String.matches` decides it: a matcher that consumes one capital
      letter at a time and must reach the end of the input. */
  function MatchesUpperPattern(s: string): (r: bool)
    ensures r <==> forall i :: 0 <= i < |s| ==> IsUpperLetter(s[i])
  {
    if |s| == 0 then true
    else IsUpperLetter(s[0]) && MatchesUpperPattern(s[1..])
  }

  /** Every comma-separated field of `line`, empty ones included. */
  function Fields(line: string): (r: seq<string>)
    ensures |r| >= 1
    ensures forall k :: 0 <= k < |r| ==> ',' !in r[k]
  {
    if |line| == 0 then [""]
    else
      var rest := Fields(line[1..]);
      if line[0] == ',' then [""] + rest
      else [[line[0]] + rest[0]] + rest[1..]
  }

  /** The fields written back with a comma between each two. */
  function Join(xs: seq<string>): string
  {
    if |xs| == 0 then ""
    else if |xs| == 1 then xs[0]
    else xs[0] + "," + Join(xs[1..])
  }

  /** Removes the empty strings at the end of `xs`. */
  function DropTrailingEmpty(xs: seq<string>): (r: seq<string>)
    ensures r <= xs
    ensures |r| == 0 || r[|r| - 1] != ""
    ensures forall k :: |r| <= k < |xs| ==> xs[k] == ""
  {
    if |xs| == 0 || xs[|xs| - 1] != "" then xs
    else DropTrailingEmpty(xs[..|xs| - 1])
  }

  /** `line.split(",")`: a line without a comma is its own single token
      (the empty line included); otherwise the fields between the commas,
      less the trailing empty ones (so "," gives no token at all). */
  function Split(line: string): (r: seq<string>)
    ensures ',' !in line ==> r == [line]
    ensures ',' in line ==> r <= Fields(line) && (|r| == 0 || r[|r| - 1] != "")
    ensures ',' in line ==> forall k :: |r| <= k < |Fields(line)| ==> Fields(line)[k] == ""
    ensures forall k :: 0 <= k < |r| ==> ',' !in r[k]
  {
    if ',' !in line then [line] else DropTrailingEmpty(Fields(line))
  }

  /** Splitting at the commas and joining again gives the line back. */
  lemma {:induction false} JoinFields(line: string)
    ensures Join(Fields(line)) == line
  {
    if |line| > 0 {
      var rest := Fields(line[1..]);
      JoinFields(line[1..]);
      if line[0] == ',' {
        assert ([""] + rest)[1..] == rest;
      } else {
        var xs := [[line[0]] + rest[0]] + rest[1..];
        if |rest| > 1 {
          assert xs[1..] == rest[1..];
          assert Join(rest) == rest[0] + "," + Join(rest[1..]);
        }
      }
      assert line == [line[0]] + line[1..];
    }
  }

  /** Fields of a comma-free prefix glued onto the first field of the rest. */
  lemma {:induction false} FieldsOfPrefix(a: string, s: string)
    requires ',' !in a
    ensures Fields(a + s) == [a + Fields(s)[0]] + Fields(s)[1..]
  {
    if |a| > 0 {
      FieldsOfPrefix(a[1..], s);
      assert (a + s)[1..] == a[1..] + s;
      assert (a + s)[0] == a[0];
      assert [a[0]] + (a[1..] + Fields(s)[0]) == a + Fields(s)[0];
    } else {
      var fs := Fields(s);
      assert a + s == s;
      assert a + fs[0] == fs[0];
      assert fs == [fs[0]] + fs[1..];
    }
  }

  /** Joining comma-free fields and splitting at the commas gives the
      fields back: the other half of the round trip. */
  lemma {:induction false} FieldsJoin(xs: seq<string>)
    requires |xs| >= 1
    requires forall k :: 0 <= k < |xs| ==> ',' !in xs[k]
    ensures Fields(Join(xs)) == xs
  {
    if |xs| == 1 {
      FieldsOfPrefix(xs[0], "");
      assert xs[0] + "" == xs[0];
    } else {
      var t := Join(xs[1..]);
      FieldsJoin(xs[1..]);
      assert Join(xs) == xs[0] + ("," + t);
      FieldsOfPrefix(xs[0], "," + t);
      assert ("," + t)[1..] == t;
      assert Fields("," + t) == [""] + Fields(t);
      assert xs[0] + "" == xs[0];
      assert xs == [xs[0]] + xs[1..];
    }
  }

  /** A line without a comma is a single field. */
  lemma {:induction false} FieldsWithoutComma(line: string)
    requires ',' !in line
    ensures Fields(line) == [line]
  {
    FieldsOfPrefix(line, "");
    assert line + "" == line;
  }

  /** Tokens are whole fields: a non-empty string is a token of `split(",")`
      exactly when it is one of the comma-separated fields, so a symbol
      never matches part of a field. */
  lemma SplitTokenIsField(line: string, s: string)
    requires s != ""
    ensures s in Split(line) <==> s in Fields(line)
  {
    if ',' !in line {
      FieldsWithoutComma(line);
    } else {
      var fs := Fields(line);
      var r := DropTrailingEmpty(fs);
      if s in fs {
        var k :| 0 <= k < |fs| && fs[k] == s;
        assert k < |r|;
        assert r[k] == s;
      }
    }
  }

  /** A line written as a comma-separated list of non-empty, comma-free
      symbols has exactly those symbols as its non-empty tokens. */
  lemma SplitOfJoin(xs: seq<string>, s: string)
    requires |xs| >= 1
    requires forall k :: 0 <= k < |xs| ==> ',' !in xs[k]
    requires s != ""
    ensures s in Split(Join(xs)) <==> s in xs
  {
    FieldsJoin(xs);
    SplitTokenIsField(Join(xs), s);
  }
}
