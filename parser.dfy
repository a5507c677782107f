/** The application-string parser (`parse_application_input`). */
module InputParser {
  import opened Wrappers
  import opened Categories
  import opened Text

  /** The `ValueError` raised for a token where a category was expected. */
  datatype ParseError = InvalidCategory(token: string)

  type Parsed = Result<seq<Category>, ParseError>

  /** `[c] * count`. */
  function Repeat(c: Category, count: nat): (r: seq<Category>)
    ensures |r| == count
    ensures forall i :: 0 <= i < count ==> r[i] == c
  {
    if count == 0 then [] else [c] + Repeat(c, count - 1)
  }

  /** The categories already collected, followed by the outcome of the rest. */
  function Prepend(prefix: seq<Category>, r: Parsed): Parsed
  {
    match r
    case Success(cats) => Success(prefix + cats)
    case Failure(e) => Failure(e)
  }

  lemma PrependNothing(r: Parsed)
    ensures Prepend([], r) == r
  {
    if r.Success? {
      assert [] + r.value == r.value;
    }
  }

  lemma PrependPrepend(a: seq<Category>, b: seq<Category>, r: Parsed)
    ensures Prepend(a, Prepend(b, r)) == Prepend(a + b, r)
  {
    if r.Success? {
      assert a + (b + r.value) == (a + b) + r.value;
    }
  }

  /** The token grammar, read left to right: a digit token followed by
      another token is a count and the category it applies to; any other
      token must be a category tag on its own. */
  function ParseTokens(parts: seq<string>): Parsed
    decreases |parts|
  {
    if parts == [] then Success([])
    else if IsDigits(parts[0]) && |parts| > 1 then
      match FromTag(parts[1])
      case None => Failure(InvalidCategory(parts[1]))
      case Some(c) => Prepend(Repeat(c, DigitsValue(parts[0])), ParseTokens(parts[2..]))
    else
      match FromTag(parts[0])
      case None => Failure(InvalidCategory(parts[0]))
      case Some(c) => Prepend([c], ParseTokens(parts[1..]))
  }

  /** What `parse_application_input` returns or raises for `input`. */
  function Parse(input: string): Parsed
  {
    if input == "" then Success([]) else ParseTokens(Split(Lower(input)))
  }

  /** The loop of `parse_application_input`: an index walks the lower-cased
      tokens, extending the list of categories by a counted group or a single
      tag, and the first bad token raises. */
  method ParseApplicationInput(input: string) returns (r: Parsed)
    ensures r == Parse(input)
  {
    if input == "" {
      return Success([]);
    }
    var categories: seq<Category> := [];
    var parts := Split(Lower(input));
    var i := 0;
    assert parts[i..] == parts;
    PrependNothing(ParseTokens(parts));
    while i < |parts|
      invariant 0 <= i <= |parts|
      invariant ParseTokens(parts) == Prepend(categories, ParseTokens(parts[i..]))
    {
      var rest := parts[i..];
      assert rest[0] == parts[i];
      if IsDigits(parts[i]) && i + 1 < |parts| {
        var count := DigitsValue(parts[i]);
        var category := parts[i + 1];
        assert rest[1] == category && rest[2..] == parts[i + 2..];
        var c := FromTag(category);
        if c.None? {
          return Failure(InvalidCategory(category));
        }
        PrependPrepend(categories, Repeat(c.value, count), ParseTokens(parts[i + 2..]));
        categories := categories + Repeat(c.value, count);
        i := i + 2;
      } else {
        var c := FromTag(parts[i]);
        if c.None? {
          return Failure(InvalidCategory(parts[i]));
        }
        assert rest[1..] == parts[i + 1..];
        PrependPrepend(categories, [c.value], ParseTokens(parts[i + 1..]));
        categories := categories + [c.value];
        i := i + 1;
      }
    }
    assert categories + [] == categories;
    return Success(categories);
  }

  // ---------------------------------------------------------------------
  // The language the grammar accepts, written as a list of entries.

  /** One group of the application string: `<digits> <tag>` or a bare tag. */
  datatype Entry = Counted(digits: string, category: Category) | Bare(category: Category)

  predicate ValidEntries(es: seq<Entry>)
  {
    forall k :: 0 <= k < |es| ==> (es[k].Counted? ==> IsDigits(es[k].digits))
  }

  /** The tokens that spell an entry. */
  function RenderEntry(e: Entry): seq<string>
  {
    match e
    case Counted(d, c) => [d, Tag(c)]
    case Bare(c) => [Tag(c)]
  }

  function Render(es: seq<Entry>): seq<string>
  {
    if es == [] then [] else RenderEntry(es[0]) + Render(es[1..])
  }

  /** The number of applications an entry stands for. */
  function Applications(e: Entry): nat
    requires e.Counted? ==> IsDigits(e.digits)
  {
    match e
    case Counted(d, _) => DigitsValue(d)
    case Bare(_) => 1
  }

  function TotalApplications(es: seq<Entry>): nat
    requires ValidEntries(es)
  {
    if es == [] then 0 else Applications(es[0]) + TotalApplications(es[1..])
  }

  /** The categories the entries stand for, in order. */
  function Expand(es: seq<Entry>): seq<Category>
    requires ValidEntries(es)
  {
    if es == [] then []
    else Repeat(es[0].category, Applications(es[0])) + Expand(es[1..])
  }

  lemma TagIsNotDigits(c: Category)
    ensures !IsDigits(Tag(c))
    ensures IsToken(Tag(c)) && IsLower(Tag(c))
  {
    assert !IsDigit(Tag(c)[0]);
  }

  /** Every spelled-out list of entries parses, to the categories it stands
      for, and the result holds one category per application. */
  lemma {:induction false} RenderParses(es: seq<Entry>)
    requires ValidEntries(es)
    ensures ParseTokens(Render(es)) == Success(Expand(es))
    ensures |Expand(es)| == TotalApplications(es)
    decreases |es|
  {
    if es != [] {
      var e, tail := es[0], es[1..];
      assert ValidEntries(tail);
      RenderParses(tail);
      var parts := Render(es);
      TagRoundTrip(e.category);
      match e
      case Counted(d, c) =>
        assert parts == [d, Tag(c)] + Render(tail);
        assert parts[2..] == Render(tail);
      case Bare(c) =>
        assert parts == [Tag(c)] + Render(tail);
        assert parts[1..] == Render(tail);
        assert Repeat(c, 1) == [c];
        TagIsNotDigits(c);
    }
  }

  /** One step of the grammar on a counted group. */
  lemma ParseCountedStep(parts: seq<string>, c: Category)
    requires |parts| > 1 && IsDigits(parts[0]) && FromTag(parts[1]) == Some(c)
    ensures ParseTokens(parts) == Prepend(Repeat(c, DigitsValue(parts[0])), ParseTokens(parts[2..]))
  {
  }

  /** One step of the grammar on a bare tag. */
  lemma ParseBareStep(parts: seq<string>, c: Category)
    requires parts != [] && !(IsDigits(parts[0]) && |parts| > 1) && FromTag(parts[0]) == Some(c)
    ensures ParseTokens(parts) == Prepend([c], ParseTokens(parts[1..]))
  {
  }

  lemma ConsEntry(e: Entry, tail: seq<Entry>)
    requires e.Counted? ==> IsDigits(e.digits)
    requires ValidEntries(tail)
    ensures ValidEntries([e] + tail)
    ensures Render([e] + tail) == RenderEntry(e) + Render(tail)
    ensures Expand([e] + tail) == Repeat(e.category, Applications(e)) + Expand(tail)
  {
    assert ([e] + tail)[1..] == tail;
  }

  /** Conversely, every token list that parses is a spelled-out list of
      entries, and the categories are the ones those entries stand for. */
  lemma {:induction false} ParseSound(parts: seq<string>, cats: seq<Category>)
    requires ParseTokens(parts) == Success(cats)
    ensures exists es :: ValidEntries(es) && Render(es) == parts && Expand(es) == cats
    decreases |parts|
  {
    if parts == [] {
      assert ValidEntries([]) && Render([]) == parts && Expand([]) == cats;
    } else {
      var e: Entry, k: nat;
      if IsDigits(parts[0]) && |parts| > 1 {
        assert FromTag(parts[1]).Some?;
        e, k := Counted(parts[0], FromTag(parts[1]).value), 2;
        ParseCountedStep(parts, e.category);
        assert RenderEntry(e) == parts[..2];
      } else {
        assert FromTag(parts[0]).Some?;
        e, k := Bare(FromTag(parts[0]).value), 1;
        ParseBareStep(parts, e.category);
        assert RenderEntry(e) == parts[..1];
        assert Repeat(e.category, 1) == [e.category];
      }
      var rest := ParseTokens(parts[k..]);
      assert rest.Success? && cats == Repeat(e.category, Applications(e)) + rest.value;
      ParseSound(parts[k..], rest.value);
      var tail :| ValidEntries(tail) && Render(tail) == parts[k..] && Expand(tail) == rest.value;
      ConsEntry(e, tail);
      assert parts[..k] + parts[k..] == parts;
      assert Render([e] + tail) == parts;
    }
  }

  /** The parse fails exactly when the tokens do not spell a list of entries. */
  lemma ParseFailsIff(parts: seq<string>)
    ensures ParseTokens(parts).Failure? <==> !exists es :: ValidEntries(es) && Render(es) == parts
  {
    if ParseTokens(parts).Success? {
      ParseSound(parts, ParseTokens(parts).value);
    } else {
      forall es | ValidEntries(es) && Render(es) == parts
        ensures false
      {
        RenderParses(es);
      }
    }
  }

  /** Where the grammar expects a category: a token that cannot start a
      counted group (it is not a digit string, or nothing follows it), or the
      token right after a count. `pre` is the count, if any. */
  predicate CategoryPosition(pre: seq<string>, t: string, rest: seq<string>)
  {
    (pre == [] && (!IsDigits(t) || rest == [])) || (|pre| == 1 && IsDigits(pre[0]))
  }

  /** A non-tag in category position after well-formed groups raises,
      naming that token, whatever follows it. */
  lemma {:induction false} FailsAtBadTag(es: seq<Entry>, pre: seq<string>, t: string, rest: seq<string>)
    requires ValidEntries(es) && CategoryPosition(pre, t, rest) && FromTag(t).None?
    ensures ParseTokens(Render(es) + pre + [t] + rest) == Failure(InvalidCategory(t))
    decreases |es|
  {
    var parts := Render(es) + pre + [t] + rest;
    if es == [] {
      assert parts == pre + [t] + rest;
      if pre != [] {
        assert parts[1] == t;
      }
    } else {
      var e, tail := es[0], es[1..];
      assert ValidEntries(tail);
      FailsAtBadTag(tail, pre, t, rest);
      var k := |RenderEntry(e)|;
      assert parts == RenderEntry(e) + (Render(tail) + pre + [t] + rest);
      assert parts[k..] == Render(tail) + pre + [t] + rest;
      TagRoundTrip(e.category);
      match e
      case Counted(d, c) =>
        ParseCountedStep(parts, c);
      case Bare(c) =>
        TagIsNotDigits(c);
        ParseBareStep(parts, c);
    }
  }

  /** `parts` is the groups `es`, then at most a count `pre`, then `t` in
      category position, then anything. */
  predicate BadTagAt(parts: seq<string>, es: seq<Entry>, pre: seq<string>, t: string, rest: seq<string>)
  {
    ValidEntries(es) && CategoryPosition(pre, t, rest) && parts == Render(es) + pre + [t] + rest
  }

  /** A failure names a token of the input that is not a category tag, and
      it is the first token in category position: the tokens before it are
      well-formed groups, followed by at most a count. */
  lemma {:induction false} FailureNamesToken(parts: seq<string>, t: string)
    requires ParseTokens(parts) == Failure(InvalidCategory(t))
    ensures t in parts && FromTag(t).None?
    ensures exists es, pre, rest :: BadTagAt(parts, es, pre, t, rest)
    decreases |parts|
  {
    var k := if IsDigits(parts[0]) && |parts| > 1 then 2 else 1;
    if FromTag(parts[k - 1]).Some? {
      var e := if k == 2 then Counted(parts[0], FromTag(parts[1]).value) else Bare(FromTag(parts[0]).value);
      TagRoundTrip(e.category);
      assert RenderEntry(e) == parts[..k];
      FailureNamesToken(parts[k..], t);
      var es, pre, rest :| BadTagAt(parts[k..], es, pre, t, rest);
      GroupThenBadTag(parts, k, e, es, pre, t, rest);
    } else {
      assert t == parts[k - 1];
      assert BadTagAt(parts, [], parts[..k - 1], t, parts[k..]) by {
        assert Render([]) + parts[..k - 1] + [t] + parts[k..] == parts;
      }
    }
  }

  lemma GroupThenBadTag(parts: seq<string>, k: nat, e: Entry, es: seq<Entry>, pre: seq<string>, t: string, rest: seq<string>)
    requires k <= |parts| && RenderEntry(e) == parts[..k] && (e.Counted? ==> IsDigits(e.digits))
    requires BadTagAt(parts[k..], es, pre, t, rest)
    ensures BadTagAt(parts, [e] + es, pre, t, rest)
  {
    ConsEntry(e, es);
    assert parts == parts[..k] + parts[k..];
  }

  /** Both directions together: the parse raises naming `t` exactly when
      `t` is not a tag and sits in the first category position that the
      groups before it leave. */
  lemma FailureIff(parts: seq<string>, t: string)
    ensures ParseTokens(parts) == Failure(InvalidCategory(t)) <==>
      FromTag(t).None? && exists es, pre, rest :: BadTagAt(parts, es, pre, t, rest)
  {
    if ParseTokens(parts) == Failure(InvalidCategory(t)) {
      FailureNamesToken(parts, t);
    } else if FromTag(t).None? && exists es, pre, rest :: BadTagAt(parts, es, pre, t, rest) {
      var es, pre, rest :| BadTagAt(parts, es, pre, t, rest);
      FailsAtBadTag(es, pre, t, rest);
      assert false;
    }
  }

  /** The empty-input shortcut agrees with splitting the empty string. */
  lemma ParseIsTokenParse(input: string)
    ensures Parse(input) == ParseTokens(Split(Lower(input)))
  {
  }

  /** Input that is empty or only whitespace yields no categories. */
  lemma ParseBlank(input: string)
    requires forall i :: 0 <= i < |input| ==> IsSpace(input[i])
    ensures Parse(input) == Success([])
  {
    SplitBlank(Lower(input));
  }

  /** Parsing ignores letter case. */
  lemma ParseCaseInsensitive(input: string)
    ensures Parse(Lower(input)) == Parse(input)
  {
    LowerIdempotent(input);
  }

  /** The application string written with single spaces parses back to the
      categories its entries stand for. */
  lemma RenderedStringParses(es: seq<Entry>)
    requires ValidEntries(es)
    ensures Parse(Join(Render(es))) == Success(Expand(es))
  {
    var parts := Render(es);
    RenderTokens(es);
    JoinLower(parts);
    LowerOfLower(Join(parts));
    SplitJoin(parts);
    ParseIsTokenParse(Join(parts));
    RenderParses(es);
  }

  /** Any input that lower-cases to the groups spelled out with arbitrary
      whitespace between, before and after the tokens parses to the
      categories the groups stand for. */
  lemma SpacedInputParses(input: string, es: seq<Entry>, gaps: seq<string>)
    requires ValidEntries(es)
    requires |gaps| == |Render(es)| + 1 && Separators(gaps)
    requires Lower(input) == Spaced(Render(es), gaps)
    ensures Parse(input) == Success(Expand(es))
  {
    RenderTokens(es);
    SplitSpaced(Render(es), gaps);
    ParseIsTokenParse(input);
    RenderParses(es);
  }

  lemma {:induction false} RenderTokens(es: seq<Entry>)
    requires ValidEntries(es)
    ensures forall j :: 0 <= j < |Render(es)| ==> IsToken(Render(es)[j]) && IsLower(Render(es)[j])
    decreases |es|
  {
    if es != [] {
      assert ValidEntries(es[1..]);
      RenderTokens(es[1..]);
      TagIsNotDigits(es[0].category);
    }
  }

  lemma ExampleMixed()
    ensures Parse("2 retail bhni 3 shni") == Success([Retail, Retail, Bhni, Shni, Shni, Shni])
  {
    var es := [Counted("2", Retail), Bare(Bhni), Counted("3", Shni)];
    MixedEntries(es);
    RenderedStringParses(es);
  }

  lemma MixedEntries(es: seq<Entry>)
    requires es == [Counted("2", Retail), Bare(Bhni), Counted("3", Shni)]
    ensures ValidEntries(es)
    ensures Join(Render(es)) == "2 retail bhni 3 shni"
    ensures Expand(es) == [Retail, Retail, Bhni, Shni, Shni, Shni]
  {
    var tail := [Bare(Bhni), Counted("3", Shni)];
    var last := [Counted("3", Shni)];
    assert es[1..] == tail && tail[1..] == last && last[1..] == [];
    var parts := ["2", "retail", "bhni", "3", "shni"];
    assert Render(es) == parts;
    JoinFive(parts);
    MixedExpansion(es);
  }

  lemma MixedExpansion(es: seq<Entry>)
    requires es == [Counted("2", Retail), Bare(Bhni), Counted("3", Shni)]
    ensures ValidEntries(es)
    ensures Expand(es) == [Retail, Retail, Bhni, Shni, Shni, Shni]
  {
    assert DigitsValue("2") == 2 && DigitsValue("3") == 3 by {
      assert "2"[..0] == [] && "3"[..0] == [];
    }
    var tail := [Bare(Bhni), Counted("3", Shni)];
    var last := [Counted("3", Shni)];
    assert es[1..] == tail && tail[1..] == last && last[1..] == [];
    assert Expand(last) == [Shni, Shni, Shni];
    assert Expand(tail) == [Bhni, Shni, Shni, Shni];
  }

  lemma JoinTwo(ts: seq<string>, s: string)
    requires |ts| == 2 && s == ts[0] + " " + ts[1]
    ensures Join(ts) == s
  {
  }

  lemma JoinThree(ts: seq<string>, s: string)
    requires |ts| == 3 && s == ts[0] + " " + ts[1] + " " + ts[2]
    ensures Join(ts) == s
  {
    JoinTwo(ts[1..], ts[1] + " " + ts[2]);
    assert s == ts[0] + " " + (ts[1] + " " + ts[2]);
  }

  lemma JoinCons(ts: seq<string>, rest: string, s: string)
    requires |ts| >= 2 && Join(ts[1..]) == rest && s == ts[0] + " " + rest
    ensures Join(ts) == s
  {
  }

  lemma JoinFive(ts: seq<string>)
    requires ts == ["2", "retail", "bhni", "3", "shni"]
    ensures Join(ts) == "2 retail bhni 3 shni"
  {
    JoinThree(ts[2..], "bhni 3 shni");
    assert ts[1..][1..] == ts[2..];
    JoinCons(ts[1..], "bhni 3 shni", "retail bhni 3 shni");
    JoinCons(ts, "retail bhni 3 shni", "2 retail bhni 3 shni");
  }

  /** Lower-case tokens joined by single spaces parse as the tokens do. */
  lemma ParseJoined(ts: seq<string>)
    requires forall j :: 0 <= j < |ts| ==> IsToken(ts[j]) && IsLower(ts[j])
    ensures Parse(Join(ts)) == ParseTokens(ts)
  {
    JoinLower(ts);
    LowerOfLower(Join(ts));
    SplitJoin(ts);
    ParseIsTokenParse(Join(ts));
  }

  lemma ExampleUnknownCategory()
    ensures Parse("2 retail foo") == Failure(InvalidCategory("foo"))
  {
    var ts := ["2", "retail", "foo"];
    JoinThree(ts, "2 retail foo");
    ParseJoined(ts);
    UnknownCategoryTokens(ts);
  }

  lemma UnknownCategoryTokens(ts: seq<string>)
    requires ts == ["2", "retail", "foo"]
    ensures ParseTokens(ts) == Failure(InvalidCategory("foo"))
  {
    assert ts[2..] == ["foo"];
    assert ParseTokens(["foo"]) == Failure(InvalidCategory("foo"));
    ParseCountedStep(ts, Retail);
  }

  /** A count followed by another count: the second is not a category. */
  lemma ExampleCountThenCount()
    ensures Parse("2 3") == Failure(InvalidCategory("3"))
  {
    var ts := ["2", "3"];
    JoinTwo(ts, "2 3");
    ParseJoined(ts);
  }

  /** A count with nothing after it is read as a (bad) category tag. */
  lemma ExampleTrailingCount()
    ensures Parse("retail 2") == Failure(InvalidCategory("2"))
  {
    var ts := ["retail", "2"];
    JoinTwo(ts, "retail 2");
    ParseJoined(ts);
    assert ts[1..] == ["2"];
  }

  /** A zero count contributes no applications. */
  lemma ExampleZeroCount()
    ensures Parse("0 retail shni") == Success([Shni])
  {
    var ts := ["0", "retail", "shni"];
    JoinThree(ts, "0 retail shni");
    ParseJoined(ts);
    ZeroCountTokens(ts);
  }

  lemma ZeroCountTokens(ts: seq<string>)
    requires ts == ["0", "retail", "shni"]
    ensures ParseTokens(ts) == Success([Shni])
  {
    assert ts[2..] == ["shni"];
    assert ParseTokens(["shni"]) == Success([Shni]) by {
      ParseBareStep(["shni"], Shni);
      assert ["shni"][1..] == [];
      assert [Shni] + [] == [Shni];
    }
    assert DigitsValue("0") == 0 by {
      assert "0"[..0] == [];
    }
    assert Repeat(Retail, 0) == [];
    ParseCountedStep(ts, Retail);
    PrependNothing(ParseTokens(["shni"]));
  }
}
