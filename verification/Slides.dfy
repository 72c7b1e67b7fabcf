/** The order in which a presentation's slide parts are read. */
module Slides {
  import opened Basics

  /** An archive member; only its name matters here, `id` tells members with equal names apart. */
  datatype File = File(Name: string, id: nat)

  datatype Slide = Slide(num: int, file: File)

  datatype Parsed = Number(n: int) | NotANumber

  const SLIDE_PREFIX := "ppt/slides/slide"
  const XML_SUFFIX := ".xml"

  predicate IsSlidePart(name: string) {
    SLIDE_PREFIX <= name && |name| >= |XML_SUFFIX| && name[|name| - |XML_SUFFIX|..] == XML_SUFFIX
  }

  /** The suffix never reaches into the prefix. */
  lemma SlidePartLength(name: string)
    requires IsSlidePart(name)
    ensures |SLIDE_PREFIX| + |XML_SUFFIX| <= |name|
  {
    var i := |name| - |XML_SUFFIX|;
    assert name[i..][0] == '.';
    assert '.' !in SLIDE_PREFIX;
    assert forall k :: 0 <= k < |SLIDE_PREFIX| ==> name[k] == SLIDE_PREFIX[k];
  }

  // ----- strconv.Atoi -----

  /** An optional sign, at least one digit, and a value that fits 64 bits. */
  function Atoi(s: string): Parsed {
    var signed := s != "" && (s[0] == '+' || s[0] == '-');
    var digits := if signed then s[1..] else s;
    if digits == "" || !AllDigits(digits) then NotANumber
    else
      var n: int := if signed && s[0] == '-' then 0 - Magnitude(digits) else Magnitude(digits);
      if -0x8000_0000_0000_0000 <= n < 0x8000_0000_0000_0000 then Number(n) else NotANumber
  }

  /** The number in a slide part's name. */
  function SlideNumber(name: string): Parsed {
    if IsSlidePart(name) && |SLIDE_PREFIX| + |XML_SUFFIX| <= |name| then
      Atoi(name[|SLIDE_PREFIX|..|name| - |XML_SUFFIX|])
    else NotANumber
  }

  /** A sign, or none, and decimal digits, with a value that fits 64 bits. */
  predicate ReadsAs(sign: string, digits: string, n: int) {
    && (sign == "" || sign == "+" || sign == "-")
    && digits != "" && AllDigits(digits)
    && n == (if sign == "-" then 0 - Magnitude(digits) else Magnitude(digits))
    && -0x8000_0000_0000_0000 <= n < 0x8000_0000_0000_0000
  }

  lemma AtoiReads(sign: string, digits: string, n: int)
    requires ReadsAs(sign, digits, n)
    ensures Atoi(sign + digits) == Number(n)
  {
    if sign == "" {
      AtoiUnsigned(digits);
      assert sign + digits == digits;
    } else {
      AtoiSigned(sign[0], digits);
      assert sign == [sign[0]];
    }
  }

  lemma AtoiUnsigned(digits: string)
    requires digits != "" && AllDigits(digits) && Magnitude(digits) < 0x8000_0000_0000_0000
    ensures Atoi(digits) == Number(Magnitude(digits))
  {
    assert IsDigit(digits[0]);
  }

  lemma AtoiSigned(sign: char, digits: string)
    requires (sign == '+' || sign == '-') && digits != "" && AllDigits(digits)
    requires Magnitude(digits) < 0x8000_0000_0000_0000 + if sign == '-' then 1 else 0
    ensures Atoi([sign] + digits) == Number(if sign == '-' then 0 - Magnitude(digits) else Magnitude(digits))
  {
    assert ([sign] + digits)[1..] == digits;
  }

  lemma AtoiIsRead(s: string) returns (sign: string, digits: string)
    requires Atoi(s).Number?
    ensures s == sign + digits && ReadsAs(sign, digits, Atoi(s).n)
  {
    if s[0] == '+' || s[0] == '-' {
      sign, digits := s[..1], s[1..];
      assert sign == "+" || sign == "-";
    } else {
      sign, digits := "", s;
    }
  }

  /** The name is the prefix, a sign and digits that read as `n`, and the suffix. */
  ghost predicate IsNumbered(name: string, sign: string, digits: string, n: int) {
    name == SLIDE_PREFIX + (sign + digits) + XML_SUFFIX && ReadsAs(sign, digits, n)
  }

  /** A part is numbered `n` exactly when its name spells it. */
  lemma SlideNumberIff(name: string, n: int)
    ensures SlideNumber(name) == Number(n) <==> exists sign, digits :: IsNumbered(name, sign, digits, n)
  {
    if SlideNumber(name) == Number(n) {
      var rest := name[|SLIDE_PREFIX|..|name| - |XML_SUFFIX|];
      var sign, digits := AtoiIsRead(rest);
      assert name == SLIDE_PREFIX + rest + XML_SUFFIX;
      assert IsNumbered(name, sign, digits, n);
    }
    if sign, digits :| IsNumbered(name, sign, digits, n) {
      NamedNumber(sign + digits);
      AtoiReads(sign, digits, n);
    }
  }

  lemma NamedNumber(rest: string)
    ensures SlideNumber(SLIDE_PREFIX + rest + XML_SUFFIX) == Atoi(rest)
  {
    var name := SLIDE_PREFIX + rest + XML_SUFFIX;
    assert name[|SLIDE_PREFIX|..|name| - |XML_SUFFIX|] == rest;
    assert name[|name| - |XML_SUFFIX|..] == XML_SUFFIX;
    assert SLIDE_PREFIX <= name;
  }

  /** The number printed into a slide part's name is read back from it. */
  lemma SlideNameRoundTrip(n: nat)
    requires n < 0x8000_0000_0000_0000
    ensures SlideNumber(SLIDE_PREFIX + Itoa(n) + XML_SUFFIX) == Number(n)
  {
    ItoaRoundTrip(n);
    AtoiReads("", Itoa(n), n);
    assert "" + Itoa(n) == Itoa(n);
    NamedNumber(Itoa(n));
  }

  // ----- sortedSlides -----

  /** The numbered slide parts of an archive, in archive order. */
  function NumberedSlides(files: seq<File>): seq<Slide> {
    if files == [] then []
    else
      NumberedSlides(files[..|files| - 1]) + SlideOf(files[|files| - 1])
  }

  /** The slide of one file, when its name has a number. */
  function SlideOf(f: File): seq<Slide> {
    match SlideNumber(f.Name)
    case Number(n) => [Slide(n, f)]
    case NotANumber => []
  }

  predicate IsNumber(f: File, n: int) {
    SlideNumber(f.Name) == Number(n)
  }

  /** Each file that spells a number is a slide under it, as often as it is listed; no other is. */
  lemma {:induction false} NumberedSlidesAre(files: seq<File>, s: Slide)
    ensures multiset(NumberedSlides(files))[s] ==
            if IsNumber(s.file, s.num) then multiset(files)[s.file] else 0
  {
    if files != [] {
      var init, last := files[..|files| - 1], files[|files| - 1];
      NumberedSlidesAre(init, s);
      SlideOfIs(last, s);
      OneMore(NumberedSlides(init), SlideOf(last), init, last, s, IsNumber(s.file, s.num));
      InitAndLast(files);
    }
  }

  lemma OneMore(slides: seq<Slide>, more: seq<Slide>, init: seq<File>, last: File, s: Slide, numbered: bool)
    requires multiset(slides)[s] == if numbered then multiset(init)[s.file] else 0
    requires multiset(more)[s] == if numbered && last == s.file then 1 else 0
    ensures multiset(slides + more)[s] == if numbered then multiset(init + [last])[s.file] else 0
  {
  }

  lemma SlideOfIs(f: File, s: Slide)
    ensures multiset(SlideOf(f))[s] == if IsNumber(s.file, s.num) && f == s.file then 1 else 0
  {
  }

  ghost predicate SortedByNumber(slides: seq<Slide>) {
    forall i, j :: 0 <= i < j < |slides| ==> slides[i].num <= slides[j].num
  }

  /** Any order sort.Slice may leave them in: ascending numbers, ties in no particular order. */
  ghost predicate IsSortedSlides(files: seq<File>, slides: seq<Slide>) {
    multiset(slides) == multiset(NumberedSlides(files)) && SortedByNumber(slides)
  }

  /** A sort that promises what sort.Slice promises. */
  method SortByNumber(slides: seq<Slide>) returns (r: seq<Slide>)
    ensures multiset(r) == multiset(slides) && SortedByNumber(r)
  {
    r := [];
    for i := 0 to |slides|
      invariant multiset(r) == multiset(slides[..i]) && SortedByNumber(r)
    {
      assert slides[..i + 1] == slides[..i] + [slides[i]];
      r := InsertSlide(slides[i], r);
    }
    assert slides[..|slides|] == slides;
  }

  method InsertSlide(s: Slide, sorted: seq<Slide>) returns (r: seq<Slide>)
    requires SortedByNumber(sorted)
    ensures multiset(r) == multiset(sorted) + multiset{s} && SortedByNumber(r)
  {
    var k := |sorted|;
    while k > 0 && sorted[k - 1].num > s.num
      invariant 0 <= k <= |sorted|
      invariant forall j :: k <= j < |sorted| ==> sorted[j].num > s.num
    {
      k := k - 1;
    }
    r := sorted[..k] + [s] + sorted[k..];
    InsertedAt(s, sorted, k);
  }

  lemma InsertedAt(s: Slide, sorted: seq<Slide>, k: nat)
    requires SortedByNumber(sorted) && k <= |sorted|
    requires forall j :: k <= j < |sorted| ==> sorted[j].num > s.num
    requires k > 0 ==> sorted[k - 1].num <= s.num
    ensures multiset(sorted[..k] + [s] + sorted[k..]) == multiset(sorted) + multiset{s}
    ensures SortedByNumber(sorted[..k] + [s] + sorted[k..])
  {
    MultisetAround(s, sorted, k);
    SortedConcat(sorted[..k], [s]);
    SortedConcat(sorted[..k] + [s], sorted[k..]);
  }

  lemma MultisetAround(s: Slide, sorted: seq<Slide>, k: nat)
    requires k <= |sorted|
    ensures multiset(sorted[..k] + [s] + sorted[k..]) == multiset(sorted) + multiset{s}
  {
    assert sorted == sorted[..k] + sorted[k..];
  }

  lemma SortedConcat(a: seq<Slide>, b: seq<Slide>)
    requires SortedByNumber(a) && SortedByNumber(b)
    requires a != [] && b != [] ==> a[|a| - 1].num <= b[0].num
    ensures SortedByNumber(a + b)
  {
    var c := a + b;
    forall i, j | 0 <= i < j < |c|
      ensures c[i].num <= c[j].num
    {
      if i < |a| <= j {
        assert a[i].num <= a[|a| - 1].num && b[0].num <= b[j - |a|].num;
      }
    }
  }

  method SortedSlides(files: seq<File>) returns (out: seq<Slide>)
    ensures IsSortedSlides(files, out)
  {
    out := [];
    for i := 0 to |files|
      invariant out == NumberedSlides(files[..i])
    {
      assert files[..i + 1][..i] == files[..i];
      var f := files[i];
      if !IsSlidePart(f.Name) {
        continue;
      }
      SlidePartLength(f.Name);
      var n := Atoi(f.Name[|SLIDE_PREFIX|..|f.Name| - |XML_SUFFIX|]);
      if n.NotANumber? {
        continue;
      }
      out := out + [Slide(n.n, f)];
    }
    assert files[..|files|] == files;
    out := SortByNumber(out);
  }

  // ----- resolveOrder -----

  /** The slide parts a presentation order names that exist, each at its first mention. */
  function Referenced(ordered: seq<string>, byName: map<string, File>, seen: set<string>): seq<File> {
    if ordered == [] then []
    else if !IsSlidePart(ordered[0]) || ordered[0] in seen || ordered[0] !in byName then
      Referenced(ordered[1..], byName, seen)
    else [byName[ordered[0]]] + Referenced(ordered[1..], byName, seen + {ordered[0]})
  }

  /** The slides whose names have not been seen, each name once. */
  function Unseen(slides: seq<Slide>, seen: set<string>): seq<Slide> {
    if slides == [] then []
    else if slides[0].file.Name in seen then Unseen(slides[1..], seen)
    else [slides[0]] + Unseen(slides[1..], seen + {slides[0].file.Name})
  }

  function FilesOf(slides: seq<Slide>): (r: seq<File>)
    ensures |r| == |slides| && forall k :: 0 <= k < |r| ==> r[k] == slides[k].file
  {
    seq(|slides|, k requires 0 <= k < |slides| => slides[k].file)
  }

  function Names(files: seq<File>): set<string> {
    set f | f in files :: f.Name
  }

  function Resolved(ordered: seq<string>, slides: seq<Slide>, byName: map<string, File>): seq<File> {
    var first := Referenced(ordered, byName, {});
    first + FilesOf(Unseen(slides, Names(first)))
  }

  /** The archive's index by name: every entry is listed under its own name. */
  ghost predicate IndexOk(byName: map<string, File>) {
    forall name :: name in byName ==> byName[name].Name == name
  }

  method ResolveOrder(ordered: seq<string>, slides: seq<Slide>, byName: map<string, File>) returns (out: seq<File>)
    requires IndexOk(byName)
    ensures out == Resolved(ordered, slides, byName)
  {
    var seen: set<string> := {};
    out := [];
    assert ordered[0..] == ordered;
    for i := 0 to |ordered|
      invariant seen == Names(out)
      invariant out + Referenced(ordered[i..], byName, seen) == Referenced(ordered, byName, {})
    {
      var name := ordered[i];
      ReferencedStep(ordered, i, byName, seen, out);
      if !IsSlidePart(name) || name in seen {
        continue;
      }
      if name in byName {
        NamesSnoc(out, byName[name]);
        out := out + [byName[name]];
        seen := seen + {name};
      }
    }
    assert out == Referenced(ordered, byName, {});
    ghost var first := out;
    assert slides[0..] == slides;
    assert out + FilesOf(Unseen(slides, seen)) == Resolved(ordered, slides, byName);
    for i := 0 to |slides|
      invariant out + FilesOf(Unseen(slides[i..], seen)) == Resolved(ordered, slides, byName)
    {
      var name := slides[i].file.Name;
      UnseenStep(slides, i, seen, out);
      if name !in seen {
        out := out + [slides[i].file];
        seen := seen + {name};
      }
    }
    assert out == Resolved(ordered, slides, byName);
  }

  lemma NamesSnoc(files: seq<File>, f: File)
    ensures Names(files + [f]) == Names(files) + {f.Name}
  {
    assert f in files + [f];
    forall name | name in Names(files) + {f.Name}
      ensures name in Names(files + [f])
    {
      if name in Names(files) {
        var g :| g in files && g.Name == name;
        assert g in files + [f];
      }
    }
  }

  lemma ReferencedStep(ordered: seq<string>, i: nat, byName: map<string, File>, seen: set<string>, out: seq<File>)
    requires i < |ordered|
    ensures var all := out + Referenced(ordered[i..], byName, seen);
            all == if !IsSlidePart(ordered[i]) || ordered[i] in seen || ordered[i] !in byName
                   then out + Referenced(ordered[i + 1..], byName, seen)
                   else (out + [byName[ordered[i]]]) + Referenced(ordered[i + 1..], byName, seen + {ordered[i]})
  {
    assert ordered[i..][0] == ordered[i] && ordered[i..][1..] == ordered[i + 1..];
  }

  lemma UnseenStep(slides: seq<Slide>, i: nat, seen: set<string>, out: seq<File>)
    requires i < |slides|
    ensures var all := out + FilesOf(Unseen(slides[i..], seen));
            all == if slides[i].file.Name in seen then out + FilesOf(Unseen(slides[i + 1..], seen))
                   else (out + [slides[i].file]) + FilesOf(Unseen(slides[i + 1..], seen + {slides[i].file.Name}))
  {
    var name := slides[i].file.Name;
    assert slides[i..][0] == slides[i] && slides[i..][1..] == slides[i + 1..];
    if name !in seen {
      FilesOfCons(slides[i], Unseen(slides[i + 1..], seen + {name}));
    }
  }

  lemma FilesOfCons(s: Slide, rest: seq<Slide>)
    ensures FilesOf([s] + rest) == [s.file] + FilesOf(rest)
  {
  }

  // ----- what the order guarantees -----

  /** No name twice, and none from `seen`. */
  ghost predicate Distinct(files: seq<File>, seen: set<string>) {
    && (forall i, j :: 0 <= i < j < |files| ==> files[i].Name != files[j].Name)
    && (forall i :: 0 <= i < |files| ==> files[i].Name !in seen)
  }

  lemma {:induction false} ReferencedDistinct(ordered: seq<string>, byName: map<string, File>, seen: set<string>)
    requires IndexOk(byName)
    ensures Distinct(Referenced(ordered, byName, seen), seen)
  {
    if ordered != [] {
      ReferencedDistinct(ordered[1..], byName, seen);
      ReferencedDistinct(ordered[1..], byName, seen + {ordered[0]});
    }
  }

  /** Exactly the slide parts that are mentioned and exist. */
  lemma {:induction false} ReferencedNames(ordered: seq<string>, byName: map<string, File>, seen: set<string>,
                                           name: string)
    requires IndexOk(byName)
    ensures name in Names(Referenced(ordered, byName, seen)) <==>
            name in ordered && IsSlidePart(name) && name in byName && name !in seen
  {
    if ordered != [] {
      assert ordered == [ordered[0]] + ordered[1..];
      if !IsSlidePart(ordered[0]) || ordered[0] in seen || ordered[0] !in byName {
        ReferencedNames(ordered[1..], byName, seen, name);
      } else {
        ReferencedNames(ordered[1..], byName, seen + {ordered[0]}, name);
        NamesCons(byName[ordered[0]], Referenced(ordered[1..], byName, seen + {ordered[0]}), name);
      }
    }
  }

  lemma NamesCons(f: File, rest: seq<File>, name: string)
    ensures name in Names([f] + rest) <==> name == f.Name || name in Names(rest)
  {
    assert f in [f] + rest;
    if name in Names(rest) {
      var g :| g in rest && g.Name == name;
      assert g in [f] + rest;
    }
  }

  /** The place of a name's first mention. */
  function FirstMention(ordered: seq<string>, name: string): nat {
    if ordered == [] || ordered[0] == name then 0 else 1 + FirstMention(ordered[1..], name)
  }

  /** Referenced parts come in the order of their first mentions. */
  lemma {:induction false} ReferencedInOrder(ordered: seq<string>, byName: map<string, File>, seen: set<string>,
                                             i: nat, j: nat)
    requires IndexOk(byName) && i < j < |Referenced(ordered, byName, seen)|
    ensures var r := Referenced(ordered, byName, seen);
            FirstMention(ordered, r[i].Name) < FirstMention(ordered, r[j].Name)
  {
    if !IsSlidePart(ordered[0]) || ordered[0] in seen || ordered[0] !in byName {
      var r := Referenced(ordered, byName, seen);
      ReferencedInOrder(ordered[1..], byName, seen, i, j);
      NotDropped(ordered, byName, seen, r[i]);
      NotDropped(ordered, byName, seen, r[j]);
    } else {
      var rest := Referenced(ordered[1..], byName, seen + {ordered[0]});
      ReferencedDistinct(ordered[1..], byName, seen + {ordered[0]});
      if i > 0 {
        ReferencedInOrder(ordered[1..], byName, seen + {ordered[0]}, i - 1, j - 1);
      }
    }
  }

  /** A name that is passed over is not among the parts kept. */
  lemma NotDropped(ordered: seq<string>, byName: map<string, File>, seen: set<string>, f: File)
    requires IndexOk(byName) && ordered != [] && f in Referenced(ordered, byName, seen)
    requires !IsSlidePart(ordered[0]) || ordered[0] in seen || ordered[0] !in byName
    ensures f.Name != ordered[0]
  {
    ReferencedNames(ordered, byName, seen, f.Name);
  }

  lemma {:induction false} UnseenFrom(slides: seq<Slide>, seen: set<string>)
    ensures forall k :: 0 <= k < |Unseen(slides, seen)| ==> Unseen(slides, seen)[k] in slides
  {
    if slides != [] {
      UnseenFrom(slides[1..], seen);
      UnseenFrom(slides[1..], seen + {slides[0].file.Name});
    }
  }

  lemma {:induction false} UnseenSorted(slides: seq<Slide>, seen: set<string>)
    requires SortedByNumber(slides)
    ensures SortedByNumber(Unseen(slides, seen))
  {
    if slides != [] {
      var next := seen + {slides[0].file.Name};
      UnseenSorted(slides[1..], seen);
      UnseenSorted(slides[1..], next);
      UnseenFrom(slides[1..], next);
      SortedCons(slides, Unseen(slides[1..], next));
    }
  }

  lemma SortedCons(slides: seq<Slide>, rest: seq<Slide>)
    requires slides != [] && SortedByNumber(slides) && SortedByNumber(rest)
    requires forall k :: 0 <= k < |rest| ==> rest[k] in slides[1..]
    ensures SortedByNumber([slides[0]] + rest)
  {
    forall k | 0 <= k < |rest|
      ensures slides[0].num <= rest[k].num
    {
      var j :| 0 <= j < |slides[1..]| && slides[1..][j] == rest[k];
      assert slides[j + 1] == rest[k];
    }
  }

  lemma {:induction false} UnseenDistinct(slides: seq<Slide>, seen: set<string>)
    ensures Distinct(FilesOf(Unseen(slides, seen)), seen)
  {
    if slides != [] {
      var next := seen + {slides[0].file.Name};
      UnseenDistinct(slides[1..], seen);
      UnseenDistinct(slides[1..], next);
      if slides[0].file.Name !in seen {
        assert FilesOf(Unseen(slides, seen)) == [slides[0].file] + FilesOf(Unseen(slides[1..], next));
      }
    }
  }

  lemma {:induction false} UnseenComplete(slides: seq<Slide>, seen: set<string>, k: nat)
    requires k < |slides|
    ensures slides[k].file.Name in seen || slides[k].file.Name in Names(FilesOf(Unseen(slides, seen)))
  {
    var name := slides[0].file.Name;
    if name in seen {
      if k > 0 {
        UnseenComplete(slides[1..], seen, k - 1);
      }
    } else {
      var rest := Unseen(slides[1..], seen + {name});
      assert FilesOf(Unseen(slides, seen)) == [slides[0].file] + FilesOf(rest);
      NamesCons(slides[0].file, FilesOf(rest), slides[k].file.Name);
      if k > 0 {
        UnseenComplete(slides[1..], seen + {name}, k - 1);
      }
    }
  }

  lemma NamesConcat(a: seq<File>, b: seq<File>, name: string)
    ensures name in Names(a + b) <==> name in Names(a) || name in Names(b)
  {
    if name in Names(a) {
      var g :| g in a && g.Name == name;
      assert g in a + b;
    }
    if name in Names(b) {
      var g :| g in b && g.Name == name;
      assert g in a + b;
    }
  }

  /**
    * Each part name appears once; the referenced parts lead, in order of first mention; the rest follow in
    * non-decreasing slide number; every numbered slide part and every referenced one is there.
    */
  lemma ResolveOrderContract(ordered: seq<string>, files: seq<File>, slides: seq<Slide>, byName: map<string, File>)
    requires IndexOk(byName) && IsSortedSlides(files, slides)
    ensures var out, first := Resolved(ordered, slides, byName), Referenced(ordered, byName, {});
            var rest := Unseen(slides, Names(first));
            && Distinct(out, {})
            && out == first + FilesOf(rest) && SortedByNumber(rest)
            && (forall k :: 0 <= k < |slides| ==> slides[k].file.Name in Names(out))
  {
    var first := Referenced(ordered, byName, {});
    var rest := FilesOf(Unseen(slides, Names(first)));
    ReferencedDistinct(ordered, byName, {});
    UnseenSorted(slides, Names(first));
    UnseenDistinct(slides, Names(first));
    DistinctConcat(first, rest);
    forall k | 0 <= k < |slides|
      ensures slides[k].file.Name in Names(first + rest)
    {
      UnseenComplete(slides, Names(first), k);
      NamesConcat(first, rest, slides[k].file.Name);
    }
  }

  lemma DistinctConcat(a: seq<File>, b: seq<File>)
    requires Distinct(a, {}) && Distinct(b, Names(a))
    ensures Distinct(a + b, {})
  {
    var c := a + b;
    forall i, j | 0 <= i < j < |c|
      ensures c[i].Name != c[j].Name
    {
      if i < |a| <= j {
        assert c[i] in a && c[i].Name in Names(a);
        assert b[j - |a|].Name !in Names(a);
      }
    }
  }

  /**
    * The result holds a name exactly when it is a numbered slide part of the archive, or is mentioned, exists and is a
    * slide part.
    */
  lemma ResolveOrderNames(ordered: seq<string>, files: seq<File>, slides: seq<Slide>, byName: map<string, File>,
                          name: string)
    requires IndexOk(byName) && IsSortedSlides(files, slides)
    ensures name in Names(Resolved(ordered, slides, byName)) <==>
            (name in ordered && IsSlidePart(name) && name in byName) ||
            exists k :: 0 <= k < |files| && files[k].Name == name && SlideNumber(name).Number?
  {
    var first := Referenced(ordered, byName, {});
    var rest := Unseen(slides, Names(first));
    ReferencedNames(ordered, byName, {}, name);
    NamesConcat(first, FilesOf(rest), name);
    UnseenFrom(slides, Names(first));
    if name in Names(FilesOf(rest)) {
      var f :| f in FilesOf(rest) && f.Name == name;
      var k :| 0 <= k < |rest| && FilesOf(rest)[k] == f;
      assert rest[k] in slides;
      assert rest[k] in multiset(slides);
      assert rest[k] in NumberedSlides(files);
      NumberedFrom(files, rest[k]);
    }
    if k :| 0 <= k < |files| && files[k].Name == name && SlideNumber(name).Number? {
      NumberedThere(files, k);
      var s := Slide(SlideNumber(name).n, files[k]);
      assert s in multiset(NumberedSlides(files));
      assert s in multiset(slides);
      var q :| 0 <= q < |slides| && slides[q] == s;
      UnseenComplete(slides, Names(first), q);
    }
  }

  lemma {:induction false} NumberedFrom(files: seq<File>, s: Slide)
    requires s in NumberedSlides(files)
    ensures exists k :: 0 <= k < |files| && files[k] == s.file && SlideNumber(files[k].Name) == Number(s.num)
  {
    var init, last := files[..|files| - 1], files[|files| - 1];
    if s in NumberedSlides(init) {
      NumberedFrom(init, s);
      var k :| 0 <= k < |init| && init[k] == s.file && SlideNumber(init[k].Name) == Number(s.num);
      assert files[k] == init[k];
    } else {
      assert files[|files| - 1] == s.file;
    }
  }

  lemma {:induction false} NumberedThere(files: seq<File>, k: nat)
    requires k < |files| && SlideNumber(files[k].Name).Number?
    ensures Slide(SlideNumber(files[k].Name).n, files[k]) in NumberedSlides(files)
  {
    if k < |files| - 1 {
      NumberedThere(files[..|files| - 1], k);
    }
  }

  /** With distinct names no file is passed over. */
  lemma {:induction false} NoOrderIsFileOrder(slides: seq<Slide>, seen: set<string>)
    requires Distinct(FilesOf(slides), seen)
    ensures Unseen(slides, seen) == slides
  {
    if slides != [] {
      assert FilesOf(slides)[0].Name == slides[0].file.Name;
      assert forall i :: 0 <= i < |slides[1..]| ==> FilesOf(slides[1..])[i] == FilesOf(slides)[i + 1];
      NoOrderIsFileOrder(slides[1..], seen + {slides[0].file.Name});
    }
  }

  /** Without a presentation order the result is the file order exactly when no two slide files share a name. */
  lemma NilOrder(slides: seq<Slide>, byName: map<string, File>)
    ensures Resolved([], slides, byName) == FilesOf(Unseen(slides, {}))
    ensures Resolved([], slides, byName) == FilesOf(slides) <==> Distinct(FilesOf(slides), {})
  {
    assert Referenced([], byName, {}) == [];
    assert Names([]) == {};
    UnseenDistinct(slides, {});
    if Distinct(FilesOf(slides), {}) {
      NoOrderIsFileOrder(slides, {});
    }
  }

  // ----- the condition is needed: an archive with two parts of one name -----

  const FIRST_SLIDE := "ppt/slides/slide1.xml"
  const SLIDE_TWICE: seq<File> := [File(FIRST_SLIDE, 0), File(FIRST_SLIDE, 1)]

  lemma FirstSlideNumber()
    ensures SlideNumber(FIRST_SLIDE) == Number(1)
  {
    assert FIRST_SLIDE == SLIDE_PREFIX + "1" + XML_SUFFIX;
    assert FIRST_SLIDE[|SLIDE_PREFIX|..|FIRST_SLIDE| - |XML_SUFFIX|] == "1";
    assert "1"[..0] == "";
  }

  /** Both parts are sorted slides of the archive, but the order without a presentation holds only the first. */
  lemma SlideTwiceExample(byName: map<string, File>)
    ensures var slides := [Slide(1, SLIDE_TWICE[0]), Slide(1, SLIDE_TWICE[1])];
            && IsSortedSlides(SLIDE_TWICE, slides)
            && Resolved([], slides, byName) == [SLIDE_TWICE[0]] != FilesOf(slides)
  {
    var slides := [Slide(1, SLIDE_TWICE[0]), Slide(1, SLIDE_TWICE[1])];
    FirstSlideNumber();
    assert SLIDE_TWICE[..1] == [SLIDE_TWICE[0]] && SLIDE_TWICE[..1][..0] == [];
    assert NumberedSlides(SLIDE_TWICE[..1]) == slides[..1];
    assert NumberedSlides(SLIDE_TWICE) == slides;
    NilOrder(slides, byName);
    assert slides[1..][1..] == [];
    var none: set<string> := {};
    assert none + {FIRST_SLIDE} == {FIRST_SLIDE};
    assert Unseen(slides[1..], {FIRST_SLIDE}) == [];
    assert Unseen(slides, none) == slides[..1] + Unseen(slides[1..], none + {FIRST_SLIDE});
  }
}
