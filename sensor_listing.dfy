/**
 * The parser of `get_sensors` (init.py): the listing printed by
 * `tdtool --list-sensors` becomes one field map per line. A line is cut
 * into tokens at tabs, each token is cut at every '=' and the resulting
 * lists are handed to Python's `dict`, which insists on exactly two items
 * per list and lets a later duplicate key overwrite an earlier one.
 */
module SensorListing {
  import opened Results
  import opened Text

  /** One sensor's fields, as parsed from a line of the listing. */
  type Reading = map<string, string>

  /**
   * The line separator as the script writes it: a slash followed by the
   * letter n, not a newline character.
   */
  const LineSeparator: string := "/n"
  const FieldSeparator: string := "\t"
  const PairSeparator: string := "="

  /** `dict` refused element `element` of its list: it has `length` items, not 2. */
  datatype DictError = BadLength(element: nat, length: nat)

  /** The listing failed to parse: `dict` refused element `element` of line `line`. */
  datatype ParseError = BadElement(line: nat, element: nat, length: nat)

  /** The tab-separated tokens of one line. */
  function Tokens(line: string): seq<string>
  {
    Split(line, FieldSeparator)
  }

  /**
   * The list handed to `dict`: every token split at every '='. It has one
   * element per tab of the line plus one, and each element has one item
   * more than its token has '=' signs and joins back to that token.
   */
  function Pairs(line: string): (ps: seq<seq<string>>)
    ensures |ps| == |Tokens(line)| == Count(line, '\t') + 1
    ensures forall j :: 0 <= j < |ps| ==> ps[j] == Split(Tokens(line)[j], PairSeparator)
    ensures forall j :: 0 <= j < |ps| ==>
      |ps[j]| == Count(Tokens(line)[j], '=') + 1 && Join(ps[j], PairSeparator) == Tokens(line)[j]
  {
    var toks := Tokens(line);
    SplitCount(line, '\t');
    forall j | 0 <= j < |toks|
      ensures |Split(toks[j], PairSeparator)| == Count(toks[j], '=') + 1
      ensures Join(Split(toks[j], PairSeparator), PairSeparator) == toks[j]
    {
      SplitCount(toks[j], '=');
      JoinSplit(toks[j], PairSeparator);
    }
    seq(|toks|, j requires 0 <= j < |toks| => Split(toks[j], PairSeparator))
  }

  /**
   * Python's `dict(pairs)`: fails at the first element that does not have
   * exactly two items; otherwise maps each first item to its second item,
   * later elements overwriting earlier ones.
   */
  function DictOf(pairs: seq<seq<string>>): (r: Result<Reading, DictError>)
    ensures r.Ok? <==> forall j :: 0 <= j < |pairs| ==> |pairs[j]| == 2
    ensures r.Err? ==>
      r.error.element < |pairs| && |pairs[r.error.element]| == r.error.length != 2 &&
      forall j :: 0 <= j < r.error.element ==> |pairs[j]| == 2
    decreases |pairs|
  {
    if pairs == [] then Ok(map[])
    else
      var n := |pairs| - 1;
      match DictOf(pairs[..n])
      case Err(e) => Err(e)
      case Ok(d) =>
        if |pairs[n]| != 2 then Err(BadLength(n, |pairs[n]|))
        else Ok(d[pairs[n][0] := pairs[n][1]])
  }

  /**
   * What `dict` builds from well-formed pairs: exactly their first items as
   * keys, each bound to the second item of its LAST pair.
   */
  lemma {:induction false} DictOfContents(pairs: seq<seq<string>>)
    requires forall j :: 0 <= j < |pairs| ==> |pairs[j]| == 2
    ensures DictOf(pairs).Ok?
    ensures forall k :: k in DictOf(pairs).value <==> exists j :: 0 <= j < |pairs| && pairs[j][0] == k
    ensures forall j :: 0 <= j < |pairs| && IsLastKey(pairs, j) ==>
      DictOf(pairs).value[pairs[j][0]] == pairs[j][1]
    decreases |pairs|
  {
    if pairs != [] {
      var n := |pairs| - 1;
      var front := pairs[..n];
      assert forall j :: 0 <= j < n ==> front[j] == pairs[j];
      DictOfContents(front);
      var d := DictOf(front).value;
      assert DictOf(pairs) == Ok(d[pairs[n][0] := pairs[n][1]]);
      forall k
        ensures k in DictOf(pairs).value <==> exists j :: 0 <= j < |pairs| && pairs[j][0] == k
      {
        if k == pairs[n][0] {
          assert k in DictOf(pairs).value;
        } else if k in d {
          var j :| 0 <= j < |front| && front[j][0] == k;
          assert pairs[j][0] == k;
        } else {
          forall j | 0 <= j < |pairs| ensures pairs[j][0] != k {
            if j < n { assert front[j][0] == pairs[j][0]; }
          }
        }
      }
      forall j | 0 <= j < |pairs| && IsLastKey(pairs, j)
        ensures DictOf(pairs).value[pairs[j][0]] == pairs[j][1]
      {
        if j < n {
          assert IsLastKey(front, j);
        }
      }
    }
  }

  /** No pair after the `j`-th has the same first item. */
  predicate IsLastKey(pairs: seq<seq<string>>, j: nat)
    requires j < |pairs| && forall i :: 0 <= i < |pairs| ==> |pairs[i]| >= 1
  {
    forall i :: j < i < |pairs| ==> pairs[i][0] != pairs[j][0]
  }

  /** `dict` over the pairs of one line. */
  function ParseLine(line: string): (r: Result<Reading, DictError>)
    ensures r.Ok? <==> forall j :: 0 <= j < |Tokens(line)| ==> |Split(Tokens(line)[j], PairSeparator)| == 2
    ensures r.Err? ==>
      r.error.element < |Tokens(line)| &&
      |Split(Tokens(line)[r.error.element], PairSeparator)| == r.error.length != 2
  {
    DictOf(Pairs(line))
  }

  /** Every token of the line has exactly one '='. */
  predicate WellFormedLine(line: string)
  {
    forall t :: t in Tokens(line) ==> Count(t, '=') == 1
  }

  /** A line parses exactly when every one of its tokens has exactly one '='. */
  lemma ParseLineOk(line: string)
    ensures ParseLine(line).Ok? <==> WellFormedLine(line)
  {
    var toks := Tokens(line);
    forall j | 0 <= j < |toks|
      ensures |Pairs(line)[j]| == 2 <==> Count(toks[j], '=') == 1
    {
      SplitCount(toks[j], '=');
    }
  }

  /** A token with one '=' splits into key and value... */
  function Key(token: string): string
    requires Count(token, '=') == 1
  {
    SplitCount(token, '=');
    Split(token, PairSeparator)[0]
  }

  /** ...and value. */
  function Value(token: string): string
    requires Count(token, '=') == 1
  {
    SplitCount(token, '=');
    Split(token, PairSeparator)[1]
  }

  /** Occurrences of a character add up over a concatenation. */
  lemma {:induction false} CountConcat(a: string, b: string, c: char)
    ensures Count(a + b, c) == Count(a, c) + Count(b, c)
    decreases |a|
  {
    if a != [] {
      CountConcat(a[1..], b, c);
      assert (a + b)[0] == a[0];
      assert (a + b)[1..] == a[1..] + b;
    } else {
      assert a + b == b;
    }
  }

  /** A character occurs in a string exactly when its count is positive. */
  lemma {:induction false} CountZero(s: string, c: char)
    ensures Count(s, c) == 0 <==> c !in s
    decreases |s|
  {
    if s != [] {
      CountZero(s[1..], c);
      assert s == [s[0]] + s[1..];
    }
  }

  /** A token with one '=' is its key, the '=', and its value, neither holding a '='. */
  lemma TokenParts(token: string)
    requires Count(token, '=') == 1
    ensures token == Key(token) + "=" + Value(token)
    ensures '=' !in Key(token) && '=' !in Value(token)
  {
    var pieces := Split(token, PairSeparator);
    SplitCount(token, '=');
    JoinSplit(token, PairSeparator);
    assert pieces[1..] == [pieces[1]];
    assert token == pieces[0] + "=" + pieces[1];
    CountConcat(pieces[0] + "=", pieces[1], '=');
    CountConcat(pieces[0], "=", '=');
    CountZero(pieces[0], '=');
    CountZero(pieces[1], '=');
  }

  /** No token after the `j`-th has the same key. */
  predicate IsLastToken(toks: seq<string>, j: nat)
    requires j < |toks| && forall i :: 0 <= i < |toks| ==> Count(toks[i], '=') == 1
  {
    forall i :: j < i < |toks| ==> Key(toks[i]) != Key(toks[j])
  }

  /**
   * What one well-formed line parses to: the keys of its tokens, each bound
   * to the value of the last token with that key.
   */
  lemma ParseLineContents(line: string)
    requires WellFormedLine(line)
    ensures ParseLine(line).Ok?
    ensures forall k :: k in ParseLine(line).value <==>
      exists j :: 0 <= j < |Tokens(line)| && Key(Tokens(line)[j]) == k
    ensures forall j :: 0 <= j < |Tokens(line)| && IsLastToken(Tokens(line), j) ==>
      ParseLine(line).value[Key(Tokens(line)[j])] == Value(Tokens(line)[j])
  {
    var toks := Tokens(line);
    var ps := Pairs(line);
    forall j | 0 <= j < |toks|
      ensures Count(toks[j], '=') == 1
      ensures |ps[j]| == 2 && ps[j][0] == Key(toks[j]) && ps[j][1] == Value(toks[j])
    {
      assert toks[j] in toks;
      SplitCount(toks[j], '=');
    }
    DictOfContents(ps);
    forall j | 0 <= j < |toks| && IsLastToken(toks, j)
      ensures IsLastKey(ps, j)
    {
    }
  }

  /** The text of a line holding the given key/value pairs, in order. */
  function Render(entries: seq<(string, string)>): string
    requires |entries| >= 1
  {
    Join(seq(|entries|, j requires 0 <= j < |entries| => entries[j].0 + PairSeparator + entries[j].1),
         FieldSeparator)
  }

  /** The token `k=v` holds no tab and splits at '=' into `k` and `v`. */
  lemma RenderedToken(k: string, v: string)
    requires '=' !in k && '=' !in v && '\t' !in k && '\t' !in v
    ensures !Contains(k + PairSeparator + v, FieldSeparator)
    ensures Split(k + PairSeparator + v, PairSeparator) == [k, v]
  {
    CharBorderFree('=');
    ContainsChar(k + PairSeparator + v, '\t');
    ContainsChar(k, '=');
    ContainsChar(v, '=');
    assert Join([k, v], PairSeparator) == k + PairSeparator + v;
    SplitJoin([k, v], PairSeparator);
  }

  /**
   * A line of the form `k1=v1<TAB>k2=v2...` whose keys and values hold no
   * '=' and no tab parses to exactly those pairs, a later duplicate key
   * winning.
   */
  lemma RenderParses(entries: seq<(string, string)>)
    requires |entries| >= 1
    requires forall j :: 0 <= j < |entries| ==>
      '=' !in entries[j].0 && '=' !in entries[j].1 && '\t' !in entries[j].0 && '\t' !in entries[j].1
    ensures ParseLine(Render(entries)).Ok?
    ensures forall k :: k in ParseLine(Render(entries)).value <==>
      exists j :: 0 <= j < |entries| && entries[j].0 == k
    ensures forall j :: (0 <= j < |entries| &&
                         forall j' :: j < j' < |entries| ==> entries[j'].0 != entries[j].0) ==>
      ParseLine(Render(entries)).value[entries[j].0] == entries[j].1
  {
    RenderPairs(entries);
    var ps := Pairs(Render(entries));
    DictOfContents(ps);
    var d := DictOf(ps).value;
    forall k
      ensures k in d <==> exists j :: 0 <= j < |entries| && entries[j].0 == k
    {
      if k in d {
        var j :| 0 <= j < |ps| && ps[j][0] == k;
        assert entries[j].0 == k;
      } else {
        forall j | 0 <= j < |entries| ensures entries[j].0 != k {
          assert ps[j][0] == entries[j].0;
        }
      }
    }
    forall j | 0 <= j < |entries| && (forall j' :: j < j' < |entries| ==> entries[j'].0 != entries[j].0)
      ensures d[entries[j].0] == entries[j].1
    {
      assert IsLastKey(ps, j);
      assert ps[j] == [entries[j].0, entries[j].1];
    }
  }

  /** The list handed to `dict` for a rendered line is its pairs, in order. */
  lemma RenderPairs(entries: seq<(string, string)>)
    requires |entries| >= 1
    requires forall j :: 0 <= j < |entries| ==>
      '=' !in entries[j].0 && '=' !in entries[j].1 && '\t' !in entries[j].0 && '\t' !in entries[j].1
    ensures |Pairs(Render(entries))| == |entries|
    ensures forall j :: 0 <= j < |entries| ==> Pairs(Render(entries))[j] == [entries[j].0, entries[j].1]
  {
    var tokens := seq(|entries|, j requires 0 <= j < |entries| => entries[j].0 + PairSeparator + entries[j].1);
    forall j | 0 <= j < |tokens|
      ensures !Contains(tokens[j], FieldSeparator)
      ensures Split(tokens[j], PairSeparator) == [entries[j].0, entries[j].1]
    {
      RenderedToken(entries[j].0, entries[j].1);
    }
    CharBorderFree('\t');
    SplitJoin(tokens, FieldSeparator);
  }

  /**
   * A list comprehension whose elements may raise: all the readings in
   * order, or the error of the first element that raised, with its position.
   */
  function Collect(results: seq<Result<Reading, DictError>>): (r: Result<seq<Reading>, ParseError>)
    ensures r.Ok? <==> forall i :: 0 <= i < |results| ==> results[i].Ok?
    ensures r.Ok? ==> |r.value| == |results| && forall i :: 0 <= i < |results| ==> results[i] == Ok(r.value[i])
    ensures r.Err? ==>
      r.error.line < |results| && results[r.error.line] == Err(BadLength(r.error.element, r.error.length)) &&
      forall i :: 0 <= i < r.error.line ==> results[i].Ok?
    decreases |results|
  {
    if results == [] then Ok([])
    else
      match results[0]
      case Err(e) => Err(BadElement(0, e.element, e.length))
      case Ok(d) =>
        match Collect(results[1..])
        case Err(e) => Err(BadElement(e.line + 1, e.element, e.length))
        case Ok(ds) => Ok([d] + ds)
  }

  /**
   * The list comprehension over the lines: one reading per line, failing at
   * the first line `dict` refuses.
   */
  function ParseLines(lines: seq<string>): (r: Result<seq<Reading>, ParseError>)
    ensures r.Ok? <==> forall i :: 0 <= i < |lines| ==> ParseLine(lines[i]).Ok?
    ensures r.Ok? ==> |r.value| == |lines|
    ensures r.Ok? ==> forall i :: 0 <= i < |lines| ==> ParseLine(lines[i]) == Ok(r.value[i])
    ensures r.Err? ==> r.error.line < |lines|
    ensures r.Err? ==> ParseLine(lines[r.error.line]) == Err(BadLength(r.error.element, r.error.length))
    ensures r.Err? ==> forall i :: 0 <= i < r.error.line ==> ParseLine(lines[i]).Ok?
  {
    var results := seq(|lines|, i requires 0 <= i < |lines| => ParseLine(lines[i]));
    assert |results| == |lines| && forall i :: 0 <= i < |lines| ==> results[i] == ParseLine(lines[i]);
    Collect(results)
  }

  /** The listing parser with the line separator as a parameter. */
  function ParseListing(text: string, lineSep: string): (r: Result<seq<Reading>, ParseError>)
    requires lineSep != []
    ensures r.Ok? ==> |r.value| == |Split(text, lineSep)|
    ensures r.Err? ==> r.error.line < |Split(text, lineSep)|
  {
    ParseLines(Split(text, lineSep))
  }

  /** `get_sensors`' parser as written: lines are separated by the literal "/n". */
  function ParseSensorListing(text: string): (r: Result<seq<Reading>, ParseError>)
    ensures '/' !in text ==> r == ParseLines([text])
  {
    SlashFreeSplit(text);
    ParseListing(text, LineSeparator)
  }

  /** Cut at "/n", text without a slash is a single line. */
  lemma SlashFreeSplit(text: string)
    ensures '/' !in text ==> Split(text, LineSeparator) == [text]
  {
    if '/' !in text {
      NoSlashNoSeparator(text);
      SplitWithoutSeparator(text, LineSeparator);
    }
  }

  /** The parser separating lines at newline characters, as the listing prints them. */
  function ParseNewlineListing(text: string): Result<seq<Reading>, ParseError>
  {
    ParseListing(text, "\n")
  }

  /**
   * The whole listing parses exactly when every token of every line has
   * exactly one '='; a single bad token anywhere fails the whole call, and
   * the error names the first one.
   */
  lemma ParseListingOk(text: string, lineSep: string)
    requires lineSep != []
    ensures ParseListing(text, lineSep).Ok? <==>
      forall line :: line in Split(text, lineSep) ==> WellFormedLine(line)
    ensures ParseListing(text, lineSep).Err? ==>
      var e := ParseListing(text, lineSep).error;
      var lines := Split(text, lineSep);
      e.line < |lines| && e.element < |Tokens(lines[e.line])| &&
      Count(Tokens(lines[e.line])[e.element], '=') + 1 == e.length &&
      (forall i :: 0 <= i < e.line ==> WellFormedLine(lines[i])) &&
      (forall j :: 0 <= j < e.element ==> Count(Tokens(lines[e.line])[j], '=') == 1)
  {
    var lines := Split(text, lineSep);
    forall i | 0 <= i < |lines|
      ensures ParseLine(lines[i]).Ok? <==> WellFormedLine(lines[i])
    {
      ParseLineOk(lines[i]);
    }
    var r := ParseListing(text, lineSep);
    if r.Err? {
      var e := r.error;
      var toks := Tokens(lines[e.line]);
      SplitCount(toks[e.element], '=');
      forall j | 0 <= j < e.element
        ensures Count(toks[j], '=') == 1
      {
        SplitCount(toks[j], '=');
      }
    }
  }

  /**
   * The parser yields one reading per separated segment: joining lines free
   * of the separator and parsing gives the lines' readings in order.
   */
  lemma ParseListingSegments(lines: seq<string>, lineSep: string)
    requires |lines| >= 1 && lineSep != [] && BorderFree(lineSep)
    requires forall i :: 0 <= i < |lines| ==> !Contains(lines[i], lineSep)
    ensures ParseListing(Join(lines, lineSep), lineSep) == ParseLines(lines)
  {
    SplitJoin(lines, lineSep);
  }

  /** The literal "/n" separator cannot overlap itself. */
  lemma LineSeparatorBorderFree()
    ensures BorderFree(LineSeparator)
  {
    assert LineSeparator[1..] == "n" && LineSeparator[..1] == "/";
  }

  /** An empty listing is one empty line, and `dict` refuses its lone one-item list. */
  lemma EmptyListingFails()
    ensures ParseSensorListing("") == Err(BadElement(0, 0, 1))
  {
    assert Split("", LineSeparator) == [""];
    assert Pairs("") == [[""]];
  }

  /** A string without a slash holds no "/n". */
  lemma NoSlashNoSeparator(s: string)
    requires '/' !in s
    ensures !Contains(s, LineSeparator)
  {
    forall i: nat | i <= |s|
      ensures !OccursAt(s, LineSeparator, i)
    {
      if i + 2 <= |s| {
        assert s[i..i + 2][0] == s[i];
      }
    }
  }

  /**
   * As written, two sensors printed on two newline-terminated lines are not
   * separated: the whole text is one line, and its token "id=1\nid=2" has
   * two '=' signs, so `dict` refuses it.
   */
  lemma AsWrittenMergesLines()
    ensures ParseSensorListing("id=1\nid=2") == Err(BadElement(0, 0, 3))
  {
    assert "id=1\nid=2" == "id" + "=" + "1\nid" + "=" + "2";
    OneTokenThreePieces("id", "1\nid", "2");
  }

  /**
   * A slash-free, tab-free line with two '=' signs is one line of one token
   * with three items, which `dict` refuses.
   */
  lemma OneTokenThreePieces(a: string, b: string, c: string)
    requires '=' !in a && '=' !in b && '=' !in c
    requires '\t' !in a + "=" + b + "=" + c && '/' !in a + "=" + b + "=" + c
    ensures ParseSensorListing(a + "=" + b + "=" + c) == Err(BadElement(0, 0, 3))
  {
    var line := a + "=" + b + "=" + c;
    OneToken(line);
    ThreePieces(a, b, c);
    assert Pairs(line) == [[a, b, c]];
    assert ParseLine(line) == Err(BadLength(0, 3));
    OneLineRefused(line, BadLength(0, 3));
  }

  /**
   * As written, a single sensor's newline-terminated line parses, the
   * newline staying in its last value.
   */
  lemma AsWrittenKeepsNewline()
    ensures ParseSensorListing("id=1\n") == Ok([map["id" := "1\n"]])
  {
    var text := "id=1\n";
    RenderParsesOne("id", "1\n");
    assert "id" + "=" + "1\n" == text;
    OneLine(text, map["id" := "1\n"]);
  }

  /** Separating at newlines, the same text gives one reading per sensor. */
  lemma NewlineSeparatesLines()
    ensures ParseNewlineListing("id=1\nid=2") == Ok([map["id" := "1"], map["id" := "2"]])
  {
    assert "id=1\nid=2" == "id=1" + "\n" + "id=2";
    TwoLines("id=1", "id=2");
    RenderParsesOne("id", "1");
    RenderParsesOne("id", "2");
    assert "id" + "=" + "1" == "id=1" && "id" + "=" + "2" == "id=2";
    ParseTwoLines("id=1", "id=2", map["id" := "1"], map["id" := "2"]);
  }

  /**
   * Cutting at newlines, a listing that ends in a newline has an empty last
   * line, which `dict` refuses as a one-item list.
   */
  lemma NewlineTrailingRefused()
    ensures ParseNewlineListing("id=1\n") == Err(BadElement(1, 0, 1))
  {
    assert "id=1\n" == "id=1" + "\n" + "";
    TwoLines("id=1", "");
    RenderParsesOne("id", "1");
    assert "id" + "=" + "1" == "id=1";
    assert Pairs("") == [[""]];
    assert ParseLine("") == Err(BadLength(0, 1));
    SecondLineRefused("id=1", "", map["id" := "1"], BadLength(0, 1));
  }

  /** A line without a tab is a single token. */
  lemma OneToken(line: string)
    requires '\t' !in line
    ensures Tokens(line) == [line]
  {
    ContainsChar(line, '\t');
    SplitWithoutSeparator(line, FieldSeparator);
  }

  /** Three '='-free pieces joined by '=' split back into those pieces. */
  lemma ThreePieces(a: string, b: string, c: string)
    requires '=' !in a && '=' !in b && '=' !in c
    ensures Split(a + "=" + b + "=" + c, PairSeparator) == [a, b, c]
  {
    var pieces := [a, b, c];
    CharBorderFree('=');
    ContainsChar(a, '=');
    ContainsChar(b, '=');
    ContainsChar(c, '=');
    assert pieces[1..] == [b, c] && [b, c][1..] == [c];
    assert Join([b, c], PairSeparator) == b + "=" + c;
    assert Join(pieces, PairSeparator) == a + "=" + (b + "=" + c);
    assert a + "=" + (b + "=" + c) == a + "=" + b + "=" + c;
    SplitJoin(pieces, PairSeparator);
  }

  /** Two newline-free lines joined by a newline split back into those lines. */
  lemma TwoLines(a: string, b: string)
    requires '\n' !in a && '\n' !in b
    ensures Split(a + "\n" + b, "\n") == [a, b]
  {
    CharBorderFree('\n');
    ContainsChar(a, '\n');
    ContainsChar(b, '\n');
    assert Join([a, b], "\n") == a + "\n" + b;
    SplitJoin([a, b], "\n");
  }

  /** A one-line listing with a slash-free line is that line's reading. */
  lemma OneLine(line: string, m: Reading)
    requires '/' !in line && ParseLine(line) == Ok(m)
    ensures ParseSensorListing(line) == Ok([m])
  {
    var r := ParseLines([line]);
    assert r.Ok? && |r.value| == 1 && r.value[0] == m;
    assert r.value == [m];
  }

  /** A one-line listing with a slash-free line that `dict` refuses fails at that line. */
  lemma OneLineRefused(line: string, e: DictError)
    requires '/' !in line && ParseLine(line) == Err(e)
    ensures ParseSensorListing(line) == Err(BadElement(0, e.element, e.length))
  {
    var r := ParseLines([line]);
    assert r.Err? && r.error.line == 0;
  }

  /** Two lines of which only the first parses fail at the second. */
  lemma SecondLineRefused(first: string, second: string, m1: Reading, e: DictError)
    requires ParseLine(first) == Ok(m1) && ParseLine(second) == Err(e)
    ensures ParseLines([first, second]) == Err(BadElement(1, e.element, e.length))
  {
    var lines := [first, second];
    assert ParseLine(lines[0]) == Ok(m1) && ParseLine(lines[1]) == Err(e);
    var r := ParseLines(lines);
    assert r.Err? && r.error.line == 1;
  }

  /** Two lines that parse give their two readings, in order. */
  lemma ParseTwoLines(first: string, second: string, m1: Reading, m2: Reading)
    requires ParseLine(first) == Ok(m1) && ParseLine(second) == Ok(m2)
    ensures ParseLines([first, second]) == Ok([m1, m2])
  {
    var lines := [first, second];
    assert ParseLine(lines[0]) == Ok(m1) && ParseLine(lines[1]) == Ok(m2);
    var r := ParseLines(lines);
    assert r.Ok? && |r.value| == 2 && r.value[0] == m1 && r.value[1] == m2;
    assert r.value == [m1, m2];
  }

  /** A one-pair line `k=v` parses to the map binding k to v. */
  lemma RenderParsesOne(k: string, v: string)
    requires '=' !in k && '=' !in v && '\t' !in k && '\t' !in v
    ensures ParseLine(k + "=" + v) == Ok(map[k := v])
  {
    RenderParses([(k, v)]);
    assert Render([(k, v)]) == k + "=" + v;
    var d := ParseLine(k + "=" + v).value;
    assert d.Keys == {k};
    assert d == map[k := v];
  }
}
