/**
 The language of log patterns (LogFormatter::init in dag/logger.cpp): what a pattern is made of,
 how it is written, and which items come of it.
 */
module LogPattern {
  import opened Runs

  /** Literal text; %c for a character c; %d alone or %d{fmt}. */
  datatype Elem = Text(text: string) | Dir(c: char) | Date(fmt: Option<string>)

  /** How a pattern can end: properly, in a lone %, in %d with nothing behind, in %d{ unclosed. */
  datatype Tail = Clean | Percent | BareDate | Open(fmt: string)

  // ---- writing ------------------------------------------------------------------------

  function Written(e: Elem): string {
    match e
    case Text(t) => t
    case Dir(c) => ['%', c]
    case Date(None) => "%d"
    case Date(Some(f)) => "%d{" + f + "}"
  }

  function TailWritten(tail: Tail): string {
    match tail
    case Clean => ""
    case Percent => "%"
    case BareDate => "%d"
    case Open(f) => "%d{" + f
  }

  function Print(es: seq<Elem>, tail: Tail): string {
    if es == [] then TailWritten(tail) else Written(es[0]) + Print(es[1..], tail)
  }

  /** What can be written without being read differently. */
  predicate Plain(e: Elem, rest: string) {
    match e
    case Text(t) => t != "" && '%' !in t && (rest == "" || rest[0] == '%')
    case Dir(c) => c != 'd'
    case Date(None) => rest != "" && rest[0] != '{'
    case Date(Some(f)) => '}' !in f
  }

  predicate Normal(es: seq<Elem>, tail: Tail) {
    if es == [] then tail.Open? ==> '}' !in tail.fmt
    else Plain(es[0], Print(es[1..], tail)) && Normal(es[1..], tail)
  }

  // ---- reading ------------------------------------------------------------------------

  /** The first place of ch, or the length. */
  function Find(s: string, ch: char): (k: nat)
    ensures k <= |s| && ch !in s[..k]
    ensures k < |s| ==> s[k] == ch
  {
    if s == "" || s[0] == ch then 0
    else
      var k := Find(s[1..], ch);
      assert s[..k + 1] == [s[0]] + s[1..][..k];
      k + 1
  }

  lemma {:induction false} FindAfter(a: string, b: string, ch: char)
    requires ch !in a && (b == "" || b[0] == ch)
    ensures Find(a + b, ch) == |a|
  {
    if a == "" {
      assert a + b == b;
    } else {
      assert (a + b)[1..] == a[1..] + b;
      FindAfter(a[1..], b, ch);
    }
  }

  /** The first element and what is left; p is not a tail. */
  function Head(p: string): (r: (Elem, string))
    requires !IsTail(p)
    ensures |r.1| < |p|
  {
    if p[0] != '%' then var k := Find(p, '%'); (Text(p[..k]), p[k..])
    else if p[1] != 'd' then (Dir(p[1]), p[2..])
    else if p[2] != '{' then (Date(None), p[2..])
    else var k := Find(p[3..], '}'); (Date(Some(p[3..][..k])), p[3..][k + 1..])
  }

  predicate IsTail(p: string) {
    |p| == 0 || (p[0] == '%' && (|p| == 1 || (p[1] == 'd' && (|p| == 2 || (p[2] == '{' && '}' !in p[3..])))))
  }

  function TailOf(p: string): Tail
    requires IsTail(p)
  {
    if |p| == 0 then Clean else if |p| == 1 then Percent else if |p| == 2 then BareDate else Open(p[3..])
  }

  function Scan(p: string): (seq<Elem>, Tail)
    decreases |p|
  {
    if IsTail(p) then ([], TailOf(p))
    else
      var (e, rest) := Head(p);
      var (es, tail) := Scan(rest);
      ([e] + es, tail)
  }

  // ---- the two are inverse ------------------------------------------------------------

  lemma Braced(f: string, rest: string)
    ensures "%d{" + f + "}" + rest == "%d{" + (f + ("}" + rest))
  {
  }

  lemma SplitAt(q: string, k: nat)
    requires k < |q|
    ensures q == q[..k] + ([q[k]] + q[k + 1..])
  {
  }

  lemma HeadWritten(p: string)
    requires !IsTail(p)
    ensures Written(Head(p).0) + Head(p).1 == p && Plain(Head(p).0, Head(p).1)
  {
    if p[0] != '%' {
      var k := Find(p, '%');
      assert p == p[..k] + p[k..];
    } else if p[1] != 'd' {
      assert p == ['%', p[1]] + p[2..];
    } else if p[2] != '{' {
      assert p == "%d" + p[2..];
    } else {
      DateWritten(p, p[3..]);
    }
  }

  lemma DateWritten(p: string, q: string)
    requires !IsTail(p) && |p| >= 3 && p[0] == '%' && p[1] == 'd' && p[2] == '{' && q == p[3..]
    ensures Written(Head(p).0) + Head(p).1 == p && Plain(Head(p).0, Head(p).1)
  {
    var k := Find(q, '}');
    assert Head(p) == (Date(Some(q[..k])), q[k + 1..]);
    FormatWritten(q, k);
    assert p == "%d{" + q;
  }

  lemma FormatWritten(q: string, k: nat)
    requires k < |q| && q[k] == '}'
    ensures "%d{" + q[..k] + "}" + q[k + 1..] == "%d{" + q
  {
    SplitAt(q, k);
    Braced(q[..k], q[k + 1..]);
  }

  lemma HeadText(t: string, rest: string)
    requires Plain(Text(t), rest)
    ensures !IsTail(t + rest) && Head(t + rest) == (Text(t), rest)
  {
    FindAfter(t, rest, '%');
    assert (t + rest)[0] == t[0];
  }

  lemma HeadFormat(f: string, rest: string)
    requires '}' !in f
    ensures !IsTail("%d{" + f + "}" + rest) && Head("%d{" + f + "}" + rest) == (Date(Some(f)), rest)
  {
    var q := f + ("}" + rest);
    Braced(f, rest);
    assert ("%d{" + q)[3..] == q && q[|f|] == '}';
    FindAfter(f, "}" + rest, '}');
    assert q[..|f|] == f && q[|f| + 1..] == rest;
  }

  lemma HeadInverts(e: Elem, rest: string)
    requires Plain(e, rest)
    ensures !IsTail(Written(e) + rest) && Head(Written(e) + rest) == (e, rest)
  {
    match e
    case Text(t) => HeadText(t, rest);
    case Dir(c) => assert (Written(e) + rest)[2..] == rest;
    case Date(None) => assert (Written(e) + rest)[2..] == rest;
    case Date(Some(f)) => HeadFormat(f, rest);
  }

  lemma TailInverts(tail: Tail)
    requires tail.Open? ==> '}' !in tail.fmt
    ensures IsTail(TailWritten(tail)) && TailOf(TailWritten(tail)) == tail
  {
    if tail.Open? {
      assert TailWritten(tail)[3..] == tail.fmt;
    }
  }

  lemma ScanCons(e: Elem, rest: string)
    requires Plain(e, rest)
    ensures Scan(Written(e) + rest) == ([e] + Scan(rest).0, Scan(rest).1)
  {
    HeadInverts(e, rest);
  }

  /** Reading what was written gives it back. */
  lemma {:induction false} ScanPrint(es: seq<Elem>, tail: Tail)
    requires Normal(es, tail)
    ensures Scan(Print(es, tail)) == (es, tail)
    decreases |es|
  {
    if es == [] {
      TailInverts(tail);
    } else {
      ScanCons(es[0], Print(es[1..], tail));
      ScanPrint(es[1..], tail);
      assert es == [es[0]] + es[1..];
    }
  }

  lemma TailWrittenBack(p: string)
    requires IsTail(p)
    ensures TailWritten(TailOf(p)) == p && Normal([], TailOf(p))
  {
    if |p| >= 3 {
      assert p == "%d{" + p[3..];
    }
  }

  /** Every pattern is read as a normal list of elements and a tail, and writing those gives the
      pattern back. */
  lemma {:induction false} PrintScan(p: string)
    ensures Print(Scan(p).0, Scan(p).1) == p && Normal(Scan(p).0, Scan(p).1)
    decreases |p|
  {
    if IsTail(p) {
      TailWrittenBack(p);
    } else {
      var (e, rest) := Head(p);
      HeadWritten(p);
      PrintScan(rest);
      var (es, tail) := Scan(rest);
      assert Scan(p) == ([e] + es, tail) && ([e] + es)[1..] == es;
    }
  }

  // ---- the items ----------------------------------------------------------------------

  const DEFAULT_DATE := "%Y-%m-%d %H:%M:%S"

  datatype Item = StringItem(text: string) | DateItem(fmt: string) | Field(c: char)

  predicate KnownField(c: char): (known: bool)
    ensures known <==>
      || c == 'm' || c == 'p' || c == 'c' || c == 'r' || c == 'f' || c == 'a'
      || c == 'l' || c == 't' || c == 'b' || c == 'n' || c == 'N' || c == 'T'
  {
    c in "mpcrfaltbnNT"
  }

  /** A DateFormatItem made without a format uses the default one. */
  function Effective(fmt: string): string {
    if fmt == "" then DEFAULT_DATE else fmt
  }

  function FormatOf(e: Elem): string {
    if e.Date? && e.fmt.Some? then e.fmt.value else ""
  }

  /** data_format: all formats of the pattern, one behind the other. */
  function Formats(es: seq<Elem>): string {
    if es == [] then "" else Formats(es[..|es| - 1]) + FormatOf(es[|es| - 1])
  }

  /** The item made of an element, all dates having the same format. */
  function ItemOf(e: Elem, fmt: string): Option<Item> {
    match e
    case Text(t) => Some(StringItem(t))
    case Date(_) => Some(DateItem(Effective(fmt)))
    case Dir(c) => if KnownField(c) then Some(Field(c)) else None
  }

  /** The items up to the first directive that is not known; the flag says there was one. */
  function Build(es: seq<Elem>, fmt: string): (seq<Item>, bool) {
    if es == [] then ([], false)
    else
      match ItemOf(es[0], fmt)
      case None => ([], true)
      case Some(item) => var (items, error) := Build(es[1..], fmt); ([item] + items, error)
  }

  /** init(): the items and the error flag, or a read beyond the end of the pattern. */
  datatype Outcome = Parsed(items: seq<Item>, error: bool) | PastEnd

  function Parse(p: string): Outcome {
    var (es, tail) := Scan(p);
    match tail
    case BareDate => PastEnd
    case Open(_) => Parsed([], true)
    case _ => var (items, error) := Build(es, Formats(es)); Parsed(items, error)
  }

  // ---- the round trip -----------------------------------------------------------------

  /** What the writer of an element meant. */
  function Meant(e: Elem): Option<Item> {
    ItemOf(e, FormatOf(e))
  }

  predicate AllKnown(es: seq<Elem>) {
    forall i :: 0 <= i < |es| && es[i].Dir? ==> KnownField(es[i].c)
  }

  /** The items meant by a list of elements. */
  function MeantAll(es: seq<Elem>): (items: seq<Item>)
    requires AllKnown(es)
    ensures |items| == |es| && forall i :: 0 <= i < |es| ==> Some(items[i]) == Meant(es[i])
    ensures forall i :: 0 <= i < |es| && es[i].Text? ==> items[i] == StringItem(es[i].text)
    ensures forall i :: 0 <= i < |es| && es[i].Dir? ==> items[i] == Field(es[i].c)
    ensures forall i :: 0 <= i < |es| && es[i].Date? && es[i].fmt in {None, Some("")} ==>
      items[i] == DateItem("%Y-%m-%d %H:%M:%S")
    ensures forall i :: 0 <= i < |es| && es[i].Date? && es[i].fmt !in {None, Some("")} ==>
      items[i] == DateItem(es[i].fmt.value)
  {
    if es == [] then [] else [Meant(es[0]).value] + MeantAll(es[1..])
  }

  lemma {:induction false} BuildKnown(es: seq<Elem>, fmt: string)
    ensures Build(es, fmt).1 <==> !AllKnown(es)
    ensures AllKnown(es) ==> |Build(es, fmt).0| == |es|
    ensures forall i :: 0 <= i < |Build(es, fmt).0| ==> i < |es| && Some(Build(es, fmt).0[i]) == ItemOf(es[i], fmt)
  {
    if es != [] {
      BuildKnown(es[1..], fmt);
      assert AllKnown(es) <==> (es[0].Dir? ==> KnownField(es[0].c)) && AllKnown(es[1..]) by {
        assert forall i :: 1 <= i < |es| ==> es[i] == es[1..][i - 1];
      }
    }
  }

  /** The items of every list: text is itself, a directive its field, and all dates have the same
      format, the formats of all of them one behind the other; up to the first unknown directive.  A lone
      % at the end adds nothing. */
  lemma ItemsAre(es: seq<Elem>, tail: Tail)
    requires Normal(es, tail) && (tail == Clean || tail == Percent)
    ensures Parse(Print(es, tail)).Parsed?
    ensures var Parsed(items, error), fmt := Parse(Print(es, tail)), Formats(es);
      && |items| <= |es|
      && (if error then |items| < |es| && es[|items|].Dir? && !KnownField(es[|items|].c) else |items| == |es|)
      && forall i :: 0 <= i < |items| ==>
           match es[i]
           case Text(t) => items[i] == StringItem(t)
           case Dir(c) => items[i] == Field(c) && KnownField(c)
           case Date(_) => items[i] == DateItem(if fmt == "" then "%Y-%m-%d %H:%M:%S" else fmt)
  {
    ScanPrint(es, tail);
    BuildKnown(es, Formats(es));
    BuildStops(es, Formats(es));
  }

  lemma {:induction false} BuildStops(es: seq<Elem>, fmt: string)
    ensures var (items, error) := Build(es, fmt);
      error ==> |items| < |es| && es[|items|].Dir? && !KnownField(es[|items|].c)
  {
    if es != [] {
      BuildStops(es[1..], fmt);
      assert forall i :: 1 <= i < |es| ==> es[i] == es[1..][i - 1];
    }
  }

  /** Two dates can be told apart from one only if their formats do not run together. */
  predicate Compatible(f: string, g: string) {
    (f == "" || g == "") && (f == "" || f == DEFAULT_DATE) && (g == "" || g == DEFAULT_DATE)
  }

  predicate DatesCompatible(es: seq<Elem>) {
    forall i, j :: 0 <= i < j < |es| && es[i].Date? && es[j].Date? ==> Compatible(FormatOf(es[i]), FormatOf(es[j]))
  }

  predicate DatesMeant(es: seq<Elem>) {
    forall i :: 0 <= i < |es| && es[i].Date? ==> Effective(FormatOf(es[i])) == Effective(Formats(es))
  }

  lemma {:induction false} FormatsNone(es: seq<Elem>)
    requires forall j :: 0 <= j < |es| ==> FormatOf(es[j]) == ""
    ensures Formats(es) == ""
  {
    if es != [] {
      FormatsNone(es[..|es| - 1]);
    }
  }

  lemma {:induction false} FormatsOnly(es: seq<Elem>, k: nat)
    requires k < |es| && forall j :: 0 <= j < |es| && j != k ==> FormatOf(es[j]) == ""
    ensures Formats(es) == FormatOf(es[k])
  {
    if k == |es| - 1 {
      FormatsNone(es[..|es| - 1]);
    } else {
      FormatsOnly(es[..|es| - 1], k);
    }
  }

  lemma {:induction false} FormatsHold(es: seq<Elem>, i: nat)
    requires i < |es|
    ensures |Formats(es)| >= |FormatOf(es[i])|
  {
    if i < |es| - 1 {
      FormatsHold(es[..|es| - 1], i);
    }
  }

  lemma {:induction false} FormatsAddUp(es: seq<Elem>, i: nat, j: nat)
    requires i < j < |es|
    ensures |Formats(es)| >= |FormatOf(es[i])| + |FormatOf(es[j])|
  {
    if j == |es| - 1 {
      FormatsHold(es[..|es| - 1], i);
    } else {
      FormatsAddUp(es[..|es| - 1], i, j);
    }
  }

  lemma DatesMeantIff(es: seq<Elem>)
    ensures DatesMeant(es) <==> DatesCompatible(es)
  {
    if DatesMeant(es) {
      forall i, j | 0 <= i < j < |es| && es[i].Date? && es[j].Date?
        ensures Compatible(FormatOf(es[i]), FormatOf(es[j]))
      {
        FormatsAddUp(es, i, j);
      }
    }
    if DatesCompatible(es) {
      forall i | 0 <= i < |es| && es[i].Date?
        ensures Effective(FormatOf(es[i])) == Effective(Formats(es))
      {
        CompatibleMeant(es, i);
      }
    }
  }

  lemma CompatiblePair(es: seq<Elem>, i: nat, k: nat)
    requires DatesCompatible(es) && i < |es| && k < |es| && i != k && es[i].Date? && es[k].Date?
    ensures Compatible(FormatOf(es[i]), FormatOf(es[k]))
  {
    if i < k {
      assert Compatible(FormatOf(es[i]), FormatOf(es[k]));
    } else {
      assert Compatible(FormatOf(es[k]), FormatOf(es[i]));
    }
  }

  lemma OthersEmpty(es: seq<Elem>, k: nat, j: nat)
    requires DatesCompatible(es) && k < |es| && FormatOf(es[k]) != "" && j < |es| && j != k
    ensures FormatOf(es[j]) == "" && (es[j].Date? ==> FormatOf(es[k]) == DEFAULT_DATE)
  {
    if es[j].Date? {
      CompatiblePair(es, j, k);
    }
  }

  lemma CompatibleMeant(es: seq<Elem>, i: nat)
    requires DatesCompatible(es) && i < |es| && es[i].Date?
    ensures Effective(FormatOf(es[i])) == Effective(Formats(es))
  {
    if k :| 0 <= k < |es| && FormatOf(es[k]) != "" {
      forall j | 0 <= j < |es| && j != k
        ensures FormatOf(es[j]) == ""
      {
        OthersEmpty(es, k, j);
      }
      FormatsOnly(es, k);
      if i != k {
        OthersEmpty(es, k, i);
      }
    } else {
      FormatsNone(es);
    }
  }

  /** Parsing a printed list: with an unknown directive there is an error; otherwise the items are
      the ones meant exactly when the dates' formats do not run together: at most one date, or no
      formats, or one format that is the default. */
  lemma RoundTripIff(es: seq<Elem>)
    requires Normal(es, Clean)
    ensures !AllKnown(es) ==> Parse(Print(es, Clean)).Parsed? && Parse(Print(es, Clean)).error
    ensures AllKnown(es) ==>
      (Parse(Print(es, Clean)) == Parsed(MeantAll(es), false) <==> DatesCompatible(es))
  {
    ScanPrint(es, Clean);
    BuildKnown(es, Formats(es));
    DatesMeantIff(es);
    if AllKnown(es) {
      BuildMeant(es);
    }
  }

  lemma BuildMeant(es: seq<Elem>)
    requires AllKnown(es)
    ensures Build(es, Formats(es)).0 == MeantAll(es) <==> DatesMeant(es)
  {
    var items, meant := Build(es, Formats(es)).0, MeantAll(es);
    BuildKnown(es, Formats(es));
    forall i | 0 <= i < |es|
      ensures items[i] == meant[i] <==>
        (es[i].Date? ==> Effective(FormatOf(es[i])) == Effective(Formats(es)))
    {
      assert Some(items[i]) == ItemOf(es[i], Formats(es)) && Some(meant[i]) == Meant(es[i]);
    }
  }

  /** At most one date, as in the default pattern of dag/logger.h. */
  lemma SingleDateRoundTrip(es: seq<Elem>)
    requires Normal(es, Clean) && AllKnown(es)
    requires forall i, j :: 0 <= i < j < |es| ==> !(es[i].Date? && es[j].Date?)
    ensures Parse(Print(es, Clean)) == Parsed(MeantAll(es), false)
  {
    RoundTripIff(es);
  }

  /** Which patterns fail, for every pattern: a read beyond the end, exactly for those ending in %d;
      an error, exactly for an unclosed %d{ or a directive that is not known. */
  lemma FailsIff(p: string)
    ensures Parse(p) == PastEnd <==> exists es :: Normal(es, BareDate) && p == Print(es, BareDate)
    ensures Parse(p).Parsed? && Parse(p).error <==> exists es, tail ::
      Normal(es, tail) && p == Print(es, tail) && (tail.Open? || (tail != BareDate && !AllKnown(es)))
  {
    var (es, tail) := Scan(p);
    PrintScan(p);
    BuildKnown(es, Formats(es));
    forall es', tail' | Normal(es', tail') && p == Print(es', tail')
      ensures es' == es && tail' == tail
    {
      ScanPrint(es', tail');
    }
  }

  // ---- patterns that go wrong ---------------------------------------------------------

  lemma TwoDates(es: seq<Elem>)
    requires es == [Date(Some("a")), Date(Some("b"))]
    ensures Print(es, Clean) == "%d{a}%d{b}" && Normal(es, Clean) && Formats(es) == "ab"
  {
    assert es[1..] == [Date(Some("b"))] && es[1..][1..] == [];
    assert Print(es[1..], Clean) == "%d{b}";
    assert es[..1] == [Date(Some("a"))] && es[..1][..0] == [];
    assert Formats(es[..1]) == "a";
    assert Formats(es) == "ab";
  }

  /** "%d{a}%d{b}": both dates are given the format "ab". */
  lemma FormatsRunTogether()
    ensures Parse("%d{a}%d{b}") == Parsed([DateItem("ab"), DateItem("ab")], false)
  {
    var es := [Date(Some("a")), Date(Some("b"))];
    TwoDates(es);
    ScanPrint(es, Clean);
    BuildKnown(es, "ab");
    assert Build(es, "ab").0 == [DateItem("ab"), DateItem("ab")];
  }

  /** "%d" alone: the parser reads beyond its end. */
  lemma BareDateReadsBeyond()
    ensures Parse("%d") == PastEnd
  {
    assert IsTail("%d") && TailOf("%d") == BareDate;
  }
}
