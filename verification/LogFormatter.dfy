/**
 LogFormatter::init (dag/logger.cpp) as code: one pass over the pattern, then one over its parts.
 */
module LogFormatters {
  import opened Runs
  import opened LogPattern

  /** kind 0: literal text; kind 1: the character behind a %. */
  datatype Piece = Piece(kind: nat, text: string)

  function PieceOf(e: Elem): Piece {
    match e
    case Text(t) => Piece(0, t)
    case Dir(c) => Piece(1, [c])
    case Date(_) => Piece(1, "d")
  }

  /** The elements read so far, as the code keeps them. */
  ghost predicate Kept(done: seq<Elem>, patterns: seq<Piece>, dateFormat: string) {
    && |patterns| == |done| && dateFormat == Formats(done)
    && (forall j :: 0 <= j < |done| ==> patterns[j] == PieceOf(done[j]) && (done[j].Dir? ==> done[j].c != 'd'))
  }

  lemma KeptMore(done: seq<Elem>, patterns: seq<Piece>, dateFormat: string, e: Elem)
    requires Kept(done, patterns, dateFormat) && (e.Dir? ==> e.c != 'd')
    ensures Kept(done + [e], patterns + [PieceOf(e)], dateFormat + FormatOf(e))
  {
    assert (done + [e])[..|done|] == done;
  }

  /** Reading the pattern comes down to reading rest behind the elements done. */
  ghost predicate Left(pattern: string, done: seq<Elem>, rest: string) {
    Scan(pattern) == (done + Scan(rest).0, Scan(rest).1)
  }

  lemma Regroup(done: seq<Elem>, e: Elem, more: seq<Elem>)
    ensures done + ([e] + more) == (done + [e]) + more
  {
  }

  lemma LeftLess(pattern: string, done: seq<Elem>, e: Elem, rest: string, rest': string)
    requires Left(pattern, done, rest) && rest == Written(e) + rest' && Plain(e, rest')
    ensures Left(pattern, done + [e], rest')
  {
    ScanCons(e, rest');
    Regroup(done, e, Scan(rest').0);
  }

  /** What is still to be read at position i. */
  function Rest(pattern: string, i: nat, tmp: string, parsingString: bool): string
    requires i <= |pattern|
  {
    (if parsingString then tmp else "%") + pattern[i..]
  }

  ghost predicate Progress(pattern: string, i: nat, tmp: string, parsingString: bool, done: seq<Elem>) {
    && i <= |pattern| && '%' !in tmp && (!parsingString ==> tmp == "")
    && Left(pattern, done, Rest(pattern, i, tmp, parsingString))
  }

  lemma NothingRead(pattern: string)
    ensures Progress(pattern, 0, "", true, [])
  {
    assert "" + pattern[0..] == pattern;
    assert [] + Scan(pattern).0 == Scan(pattern).0;
  }

  lemma TextEnds(pattern: string, i: nat, tmp: string, done: seq<Elem>)
    requires Progress(pattern, i, tmp, true, done) && i < |pattern| && pattern[i] == '%'
    ensures Progress(pattern, i + 1, "", false, if tmp == "" then done else done + [Text(tmp)])
  {
    assert "%" + pattern[i + 1..] == pattern[i..];
    if tmp == "" {
      assert tmp + pattern[i..] == pattern[i..];
    } else {
      LeftLess(pattern, done, Text(tmp), tmp + pattern[i..], pattern[i..]);
    }
  }

  lemma TextGoesOn(pattern: string, i: nat, tmp: string, done: seq<Elem>)
    requires Progress(pattern, i, tmp, true, done) && i < |pattern| && pattern[i] != '%'
    ensures Progress(pattern, i + 1, tmp + [pattern[i]], true, done)
  {
    assert (tmp + [pattern[i]]) + pattern[i + 1..] == tmp + pattern[i..];
  }

  lemma DirectiveEnds(pattern: string, i: nat, done: seq<Elem>)
    requires Progress(pattern, i, "", false, done) && i < |pattern| && pattern[i] != 'd'
    ensures Progress(pattern, i + 1, "", true, done + [Dir(pattern[i])])
  {
    assert "%" + pattern[i..] == Written(Dir(pattern[i])) + pattern[i + 1..];
    LeftLess(pattern, done, Dir(pattern[i]), "%" + pattern[i..], pattern[i + 1..]);
    assert "" + pattern[i + 1..] == pattern[i + 1..];
  }

  lemma DateEnds(pattern: string, i: nat, done: seq<Elem>)
    requires Progress(pattern, i, "", false, done) && i + 1 < |pattern| && pattern[i] == 'd' && pattern[i + 1] != '{'
    ensures Progress(pattern, i + 1, "", true, done + [Date(None)])
  {
    assert "%" + pattern[i..] == "%d" + pattern[i + 1..];
    LeftLess(pattern, done, Date(None), "%" + pattern[i..], pattern[i + 1..]);
    assert "" + pattern[i + 1..] == pattern[i + 1..];
  }

  lemma FormatText(pattern: string, i: nat, end: nat, next: nat, f: string)
    requires i + 2 <= end < |pattern| && next == end + 1 && f == pattern[i + 2..end]
    requires pattern[i] == 'd' && pattern[i + 1] == '{' && pattern[end] == '}'
    ensures "%" + pattern[i..] == "%d{" + f + "}" + pattern[next..]
  {
  }

  /** %d{fmt} from i to end, where the closing brace is. */
  lemma FormatEnds(pattern: string, i: nat, end: nat, next: nat, done: seq<Elem>)
    requires Progress(pattern, i, "", false, done) && i + 2 <= end < |pattern| && next == end + 1
    requires pattern[i] == 'd' && pattern[i + 1] == '{' && '}' !in pattern[i + 2..end] && pattern[end] == '}'
    ensures Progress(pattern, next, "", true, done + [Date(Some(pattern[i + 2..end]))])
  {
    var f, rest := pattern[i + 2..end], pattern[next..];
    FormatText(pattern, i, end, next, f);
    LeftLess(pattern, done, Date(Some(f)), "%" + pattern[i..], rest);
    assert "" + rest == rest;
  }

  /** The pattern ends in %d or in an open %d{. */
  lemma DateStaysOpen(pattern: string, i: nat, done: seq<Elem>)
    requires Progress(pattern, i, "", false, done) && i < |pattern| && pattern[i] == 'd'
    requires i + 1 < |pattern| ==> pattern[i + 1] == '{' && '}' !in pattern[i + 2..]
    ensures Scan(pattern).1 == if i + 1 == |pattern| then BareDate else Open(pattern[i + 2..])
  {
    var rest := "%" + pattern[i..];
    assert i + 1 < |pattern| ==> rest[3..] == pattern[i + 2..];
    assert IsTail(rest);
  }

  /** The whole pattern has been read. */
  lemma AllRead(pattern: string, tmp: string, parsingString: bool, done: seq<Elem>)
    requires Progress(pattern, |pattern|, tmp, parsingString, done)
    ensures Scan(pattern).0 == if tmp == "" then done else done + [Text(tmp)]
    ensures Scan(pattern).1 in {Clean, Percent}
  {
    var rest := Rest(pattern, |pattern|, tmp, parsingString);
    assert pattern[|pattern|..] == "";
    if tmp != "" {
      assert rest == Written(Text(tmp)) + "";
      LeftLess(pattern, done, Text(tmp), rest, "");
      assert Scan("").0 == [];
    } else {
      assert rest == if parsingString then "" else "%";
    }
  }

  ghost predicate Reading(
    pattern: string, i: nat, tmp: string, parsingString: bool, done: seq<Elem>,
    patterns: seq<Piece>, dateFormat: string)
  {
    Progress(pattern, i, tmp, parsingString, done) && Kept(done, patterns, dateFormat)
  }

  lemma EndText(pattern: string, i: nat, tmp: string, done: seq<Elem>, patterns: seq<Piece>, dateFormat: string)
    requires Reading(pattern, i, tmp, true, done, patterns, dateFormat) && i < |pattern| && pattern[i] == '%'
    ensures tmp == "" ==> Reading(pattern, i + 1, "", false, done, patterns, dateFormat)
    ensures tmp != "" ==> Reading(pattern, i + 1, "", false, done + [Text(tmp)], patterns + [Piece(0, tmp)], dateFormat)
  {
    TextEnds(pattern, i, tmp, done);
    KeptMore(done, patterns, dateFormat, Text(tmp));
    assert dateFormat + "" == dateFormat;
  }

  lemma EndDirective(pattern: string, i: nat, done: seq<Elem>, patterns: seq<Piece>, dateFormat: string)
    requires Reading(pattern, i, "", false, done, patterns, dateFormat) && i < |pattern| && pattern[i] != 'd'
    ensures Reading(pattern, i + 1, "", true, done + [Dir(pattern[i])], patterns + [Piece(1, [pattern[i]])], dateFormat)
  {
    DirectiveEnds(pattern, i, done);
    KeptMore(done, patterns, dateFormat, Dir(pattern[i]));
    assert dateFormat + "" == dateFormat;
  }

  lemma LastText(
    pattern: string, tmp: string, parsingString: bool, done: seq<Elem>, patterns: seq<Piece>, dateFormat: string)
    requires Reading(pattern, |pattern|, tmp, parsingString, done, patterns, dateFormat)
    ensures Kept(Scan(pattern).0, if tmp == "" then patterns else patterns + [Piece(0, tmp)], dateFormat)
    ensures Scan(pattern).1 in {Clean, Percent}
  {
    AllRead(pattern, tmp, parsingString, done);
    KeptMore(done, patterns, dateFormat, Text(tmp));
    assert dateFormat + "" == dateFormat;
  }

  class LogFormatter {
    const pattern: string
    var items: seq<Item>
    var error: bool

    constructor (pattern: string)
      ensures this.pattern == pattern && items == [] && !error
    {
      this.pattern, items, error := pattern, [], false;
    }

    /** The text between the braces is added to the date format; i is where it ends. */
    method ReadFormat(start: nat, dateFormat: string) returns (i: nat, longer: string)
      requires start <= |pattern|
      ensures start <= i <= |pattern| && '}' !in pattern[start..i]
      ensures i < |pattern| ==> pattern[i] == '}'
      ensures longer == dateFormat + pattern[start..i]
    {
      i, longer := start, dateFormat;
      while i < |pattern| && pattern[i] != '}'
        invariant start <= i <= |pattern| && '}' !in pattern[start..i]
        invariant longer == dateFormat + pattern[start..i]
      {
        longer := longer + [pattern[i]];
        i := i + 1;
      }
    }

    /** The d behind a % is at i: go to what follows it and its format. */
    method ReadDate(i: nat, dateFormat: string, ghost done: seq<Elem>)
      returns (end: End, after: nat, longer: string, ghost e: Elem)
      requires Progress(pattern, i, "", false, done) && i < |pattern| && pattern[i] == 'd'
      ensures end == Beyond ==> Scan(pattern).1 == BareDate
      ensures end == Unclosed ==> Scan(pattern).1.Open?
      ensures end == Whole ==>
        i < after && e.Date? && longer == dateFormat + FormatOf(e) && Progress(pattern, after, "", true, done + [e])
    {
      if i + 1 < |pattern| && pattern[i + 1] != '{' {
        DateEnds(pattern, i, done);
        return Whole, i + 1, dateFormat, Date(None);
      }
      // the brace is skipped even where there is none
      if i + 2 > |pattern| {
        DateStaysOpen(pattern, i, done);
        return Beyond, i, dateFormat, Date(None);
      }
      var close;
      close, longer := ReadFormat(i + 2, dateFormat);
      after, e := close + 1, Date(Some(pattern[i + 2..close]));
      if close == |pattern| {
        DateStaysOpen(pattern, i, done);
        return Unclosed, after, longer, e;
      }
      FormatEnds(pattern, i, close, after, done);
      return Whole, after, longer, e;
    }

    /** One character: text, a %, or the directive behind a %. */
    method ReadChar(i: nat, tmp: string, parsingString: bool, patterns: seq<Piece>,
                    ghost done: seq<Elem>, ghost dateFormat: string)
      returns (tmp': string, parsingString': bool, patterns': seq<Piece>, ghost done': seq<Elem>)
      requires Reading(pattern, i, tmp, parsingString, done, patterns, dateFormat) && i < |pattern|
      requires parsingString || pattern[i] != 'd'
      ensures Reading(pattern, i + 1, tmp', parsingString', done', patterns', dateFormat)
    {
      tmp', patterns', done' := "", patterns, done;
      if parsingString {
        if pattern[i] == '%' {
          EndText(pattern, i, tmp, done, patterns, dateFormat);
          if tmp != "" {
            patterns', done' := patterns + [Piece(0, tmp)], done + [Text(tmp)];
          }
          parsingString' := false;
        } else {
          TextGoesOn(pattern, i, tmp, done);
          tmp', parsingString' := tmp + [pattern[i]], true;
        }
      } else {
        EndDirective(pattern, i, done, patterns, dateFormat);
        patterns', done' := patterns + [Piece(1, [pattern[i]])], done + [Dir(pattern[i])];
        parsingString' := true;
      }
    }

    /** The first pass: the pattern in pieces, and the date formats one behind the other. */
    method Split() returns (end: End, patterns: seq<Piece>, dateFormat: string)
      ensures end == Beyond <==> Scan(pattern).1 == BareDate
      ensures end == Unclosed <==> Scan(pattern).1.Open?
      ensures end == Whole ==> Kept(Scan(pattern).0, patterns, dateFormat)
    {
      patterns, dateFormat := [], "";
      var tmp, parsingString, i := "", true, 0;
      ghost var done: seq<Elem> := [];
      NothingRead(pattern);
      while i < |pattern|
        invariant Reading(pattern, i, tmp, parsingString, done, patterns, dateFormat)
      {
        if parsingString || pattern[i] != 'd' {
          tmp, parsingString, patterns, done := ReadChar(i, tmp, parsingString, patterns, done, dateFormat);
          i := i + 1;
        } else {
          ghost var e;
          end, i, dateFormat, e := ReadDate(i, dateFormat, done);
          if end != Whole {
            return;
          }
          KeptMore(done, patterns, Formats(done), e);
          patterns, parsingString, done := patterns + [Piece(1, "d")], true, done + [e];
        }
      }
      LastText(pattern, tmp, parsingString, done, patterns, dateFormat);
      end := Whole;
      if tmp != "" {
        patterns := patterns + [Piece(0, tmp)];
      }
    }

    /** The second pass: an item for every piece, up to a directive that is not known. */
    method BuildItems(patterns: seq<Piece>, dateFormat: string, ghost es: seq<Elem>) returns (unknown: bool)
      requires Kept(es, patterns, dateFormat) && items == []
      modifies this`items
      ensures Build(es, dateFormat) == (items, unknown)
    {
      var k := 0;
      assert es[0..] == es && [] + Build(es, dateFormat).0 == Build(es, dateFormat).0;
      while k < |patterns|
        invariant k <= |patterns| && Built(es, dateFormat, k, items)
      {
        var v := patterns[k];
        BuiltMore(es, dateFormat, k, items);
        if v.kind == 0 {
          items := items + [StringItem(v.text)];
        } else if v.text == "d" {
          items := items + [DateItem(Effective(dateFormat))];
        } else if KnownField(v.text[0]) {
          items := items + [Field(v.text[0])];
        } else {
          return true;
        }
        k := k + 1;
      }
      assert es[k..] == [] && items + [] == items;
      return false;
    }

    /** init(); false if it reads beyond the end of the pattern. */
    method Init() returns (inBounds: bool)
      requires items == [] && !error
      modifies this`items, this`error
      ensures inBounds <==> Parse(pattern) != PastEnd
      ensures inBounds ==> Parse(pattern) == Parsed(items, error)
    {
      var end, patterns, dateFormat := Split();
      if end == Beyond {
        return false;
      }
      if end == Unclosed {
        error := true;
        return true;
      }
      error := BuildItems(patterns, dateFormat, Scan(pattern).0);
      return true;
    }
  }

  /** How the first pass ends. */
  datatype End = Whole | Unclosed | Beyond

  /** items are those of the first k elements. */
  ghost predicate Built(es: seq<Elem>, fmt: string, k: nat, items: seq<Item>) {
    k <= |es| && Build(es, fmt) == (items + Build(es[k..], fmt).0, Build(es[k..], fmt).1)
  }

  lemma BuiltMore(es: seq<Elem>, fmt: string, k: nat, items: seq<Item>)
    requires Built(es, fmt, k, items) && k < |es|
    ensures ItemOf(es[k], fmt) == None ==> Build(es, fmt) == (items, true)
    ensures ItemOf(es[k], fmt) != None ==> Built(es, fmt, k + 1, items + [ItemOf(es[k], fmt).value])
  {
    assert es[k..][0] == es[k] && es[k..][1..] == es[k + 1..];
    match ItemOf(es[k], fmt)
    case None =>
      assert Build(es[k..], fmt) == ([], true) && items + [] == items;
    case Some(item) =>
      var rest := Build(es[k + 1..], fmt);
      assert Build(es[k..], fmt) == ([item] + rest.0, rest.1);
      assert items + ([item] + rest.0) == items + [item] + rest.0;
  }
}
