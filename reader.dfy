/** The reader: one textual form in, one object and the unconsumed rest of
    the text out. Only atoms are read; a list or a quoted form is answered
    with the error "noimpl". */
module Reader {
  import opened Numbers
  import opened Values

  const LPar: char := '('
  const RPar: char := ')'
  const Quote: char := '\''

  /** Whitespace: tab, CR, LF and space. Each is also white space to
      `Int32.Parse`, which in addition takes vertical tab and form feed. */
  predicate IsSpace(c: char)
    ensures IsSpace(c) ==> '\t' <= c <= '\r' || c == ' '
  {
    c == '\t' || c == '\r' || c == '\n' || c == ' '
  }

  /** A character that ends an atom; none can occur in the text of a number. */
  predicate IsDelimiter(c: char)
    ensures IsDelimiter(c) ==> !IsDigit(c) && c != '+' && c != '-'
  {
    c == LPar || c == RPar || c == Quote || IsSpace(c)
  }

  predicate AllSpaces(s: string) {
    forall i :: 0 <= i < |s| ==> IsSpace(s[i])
  }

  predicate NoDelimiter(s: string) {
    forall i :: 0 <= i < |s| ==> !IsDelimiter(s[i])
  }

  /** What a read returns: the object and the text that follows it. */
  datatype ParseState = ParseState(obj: LObj, next: string)

  /** A call either returns or lets the `OverflowException` of `Int32.Parse`
      escape; the reader catches only format failures. */
  datatype Outcome<T> = Returned(value: T) | Overflow

  // ---------------------------------------------------------------------------
  // Specification of the reader on text

  /** The text with its leading whitespace removed. */
  function TrimSpaces(s: string): (r: string)
    ensures |r| <= |s| && r == s[|s| - |r|..]
    ensures r == [] || !IsSpace(r[0])
  {
    if s != [] && IsSpace(s[0]) then TrimSpaces(s[1..]) else s
  }

  /** The longest delimiter-free prefix of `s` and the rest of `s`. */
  function SplitAtom(s: string): (p: (string, string))
    ensures p.0 + p.1 == s
    ensures p.1 == [] || IsDelimiter(p.1[0])
  {
    if s == [] || IsDelimiter(s[0]) then ([], s)
    else
      var (a, b) := SplitAtom(s[1..]);
      assert [s[0]] + a + b == s by {
        assert [s[0]] + s[1..] == s;
      }
      ([s[0]] + a, b)
  }

  /** Everything `TrimSpaces` removes is whitespace. */
  lemma {:induction false} TrimSpacesDropsSpaces(s: string)
    ensures AllSpaces(s[..|s| - |TrimSpaces(s)|])
  {
    if s != [] && IsSpace(s[0]) {
      TrimSpacesDropsSpaces(s[1..]);
      var k := |s| - |TrimSpaces(s)|;
      assert s[..k] == [s[0]] + s[1..][..k - 1];
    }
  }

  /** The scanned atom text never contains a delimiter. */
  lemma {:induction false} SplitAtomNoDelimiter(s: string)
    ensures NoDelimiter(SplitAtom(s).0)
  {
    if s != [] && !IsDelimiter(s[0]) {
      SplitAtomNoDelimiter(s[1..]);
      var a := SplitAtom(s[1..]).0;
      assert SplitAtom(s).0 == [s[0]] + a;
      assert forall i :: 0 < i <= |a| ==> ([s[0]] + a)[i] == a[i - 1];
    }
  }

  /** What an atom denotes, independently of the objects that represent it. */
  datatype Atom = NumAtom(n: Int32) | SymAtom(text: string) | NilAtom

  /** An atom's text is a number when it parses as one, the canonical `nil`
      for "nil", and otherwise a symbol; a number out of range escapes. */
  function Classify(text: string): Outcome<Atom> {
    match ParseInt32(text)
    case Parsed(n) => Returned(NumAtom(n))
    case FormatFailure => Returned(if text == "nil" then NilAtom else SymAtom(text))
    case OverflowFailure => Overflow
  }

  /** What a read produces: an error object (the rest is then always empty),
      an atom and the rest of the text, or an escaping overflow. */
  datatype Expected = ErrorOut(msg: string) | AtomOut(atom: Atom, next: string) | Overflows

  function AtomSpec(s: string): Expected {
    var (text, next) := SplitAtom(s);
    match Classify(text)
    case Returned(a) => AtomOut(a, next)
    case Overflow => Overflows
  }

  function ReadSpec(s: string): Expected {
    var t := TrimSpaces(s);
    if t == [] then ErrorOut("empty input")
    else if t[0] == RPar then ErrorOut("invalid syntax: " + t)
    else if t[0] == LPar || t[0] == Quote then ErrorOut("noimpl")
    else AtomSpec(t)
  }

  /** The symbol texts a read with this outcome enters in the symbol table. */
  function Interned(e: Expected): set<string> {
    if e.AtomOut? && e.atom.SymAtom? then {e.atom.text} else {}
  }

  /** `o` is the object that represents the atom `a` under the state of `u`. */
  ghost predicate Denotes(u: Util, o: LObj, a: Atom)
    reads u
  {
    match a
    case NumAtom(n) => o.tag == Tag.Num && o.data == IntBox(n)
    case SymAtom(t) => t in u.symbolMap && u.symbolMap[t] == o
    case NilAtom => o == u.nilObj
  }

  /** The result `r` of a read is the outcome `e` described above. */
  ghost predicate Conforms(u: Util, r: Outcome<ParseState>, e: Expected)
    reads u
  {
    match e
    case ErrorOut(m) =>
      r.Returned? && r.value.obj.tag == Tag.Error && r.value.obj.data == StrBox(m) && r.value.next == ""
    case AtomOut(a, next) =>
      r.Returned? && Denotes(u, r.value.obj, a) && r.value.next == next
    case Overflows =>
      r.Overflow?
  }

  // ---------------------------------------------------------------------------
  // The reader

  method SkipSpaces(s: string) returns (r: string)
    ensures r == TrimSpaces(s)
  {
    var i := 0;
    while i < |s|
      invariant 0 <= i <= |s|
      invariant TrimSpaces(s[i..]) == TrimSpaces(s)
    {
      if !IsSpace(s[i]) {
        break;
      }
      assert s[i..][1..] == s[i + 1..];
      i := i + 1;
    }
    r := s[i..];
  }

  /** A number object when `s` parses as a 32-bit integer, otherwise the
      interned symbol (or `nil`); an overflow is not caught. */
  method MakeNumOrSym(u: Util, s: string) returns (r: Outcome<LObj>)
    requires u.Valid()
    modifies u`symbolMap
    ensures u.Valid() && Extends(old(u.symbolMap), u.symbolMap)
    ensures u.symbolMap.Keys ==
              old(u.symbolMap).Keys + if Classify(s).Returned? && Classify(s).value.SymAtom? then {s} else {}
    ensures Classify(s).Overflow? <==> r.Overflow?
    ensures r.Returned? ==> Denotes(u, r.value, Classify(s).value)
    ensures r.Returned? && Classify(s).value.NumAtom? ==> fresh(r.value)
    ensures r.Returned? && Classify(s).value.SymAtom? ==> (fresh(r.value) <==> s !in old(u.symbolMap))
  {
    match ParseInt32(s)
    case Parsed(n) =>
      var o := u.MakeNum(n);
      r := Returned(o);
    case FormatFailure =>
      var o := u.MakeSym(s);
      r := Returned(o);
    case OverflowFailure =>
      r := Overflow;
  }

  method ParseError(u: Util, msg: string) returns (p: ParseState)
    ensures fresh(p.obj) && p.obj.tag == Tag.Error && p.obj.data == StrBox(msg) && p.next == ""
  {
    var e := u.MakeError(msg);
    p := ParseState(e, "");
  }

  /** Scans the atom at the start of `s` up to the first delimiter and turns
      its text into a number or a symbol. */
  method ReadAtom(u: Util, s: string) returns (r: Outcome<ParseState>)
    requires u.Valid()
    modifies u`symbolMap
    ensures u.Valid() && Extends(old(u.symbolMap), u.symbolMap)
    ensures u.symbolMap.Keys == old(u.symbolMap).Keys + Interned(AtomSpec(s))
    ensures Conforms(u, r, AtomSpec(s))
    ensures r.Returned? && AtomSpec(s).atom.NumAtom? ==> fresh(r.value.obj)
    ensures r.Returned? && AtomSpec(s).atom.SymAtom? ==> (fresh(r.value.obj) <==> AtomSpec(s).atom.text !in old(u.symbolMap))
  {
    var str, next := s, "";
    var i := 0;
    while i < |s|
      invariant 0 <= i <= |s|
      invariant forall j :: 0 <= j < i ==> !IsDelimiter(s[j])
      invariant str == s && next == ""
    {
      if IsDelimiter(s[i]) {
        next := s[i..];
        str := s[..i];
        break;
      }
      i := i + 1;
    }
    SplitAtomUnique(s, str, next);
    var o := MakeNumOrSym(u, str);
    match o
    case Returned(obj) => r := Returned(ParseState(obj, next));
    case Overflow => r := Overflow;
  }

  /** Reads one form from `s`. */
  method Read(u: Util, s: string) returns (r: Outcome<ParseState>)
    requires u.Valid()
    modifies u`symbolMap
    ensures u.Valid() && Extends(old(u.symbolMap), u.symbolMap)
    ensures u.symbolMap.Keys == old(u.symbolMap).Keys + Interned(ReadSpec(s))
    ensures Conforms(u, r, ReadSpec(s))
    ensures r.Returned? && (ReadSpec(s).ErrorOut? || ReadSpec(s).atom.NumAtom?) ==> fresh(r.value.obj)
    ensures r.Returned? && ReadSpec(s).AtomOut? && ReadSpec(s).atom.SymAtom? ==>
              (fresh(r.value.obj) <==> ReadSpec(s).atom.text !in old(u.symbolMap))
  {
    var str := SkipSpaces(s);
    if |str| == 0 {
      var p := ParseError(u, "empty input");
      return Returned(p);
    } else if str[0] == RPar {
      var p := ParseError(u, "invalid syntax: " + str);
      return Returned(p);
    } else if str[0] == LPar {
      var p := ParseError(u, "noimpl");
      return Returned(p);
    } else if str[0] == Quote {
      var p := ParseError(u, "noimpl");
      return Returned(p);
    }
    r := ReadAtom(u, str);
  }

  /** Two reads that each yield a symbol give back one object exactly when
      the two symbols have the same text. */
  method ReadTwice(u: Util, s1: string, s2: string) returns (a: Outcome<ParseState>, b: Outcome<ParseState>)
    requires u.Valid()
    modifies u`symbolMap
    ensures u.Valid() && Extends(old(u.symbolMap), u.symbolMap)
    ensures ReadSpec(s1).AtomOut? && ReadSpec(s1).atom.SymAtom? && ReadSpec(s2).AtomOut? && ReadSpec(s2).atom.SymAtom? ==>
              && a.Returned? && b.Returned?
              && (a.value.obj == b.value.obj <==> ReadSpec(s1).atom.text == ReadSpec(s2).atom.text)
  {
    a := Read(u, s1);
    b := Read(u, s2);
  }

  // ---------------------------------------------------------------------------
  // Properties of the specification

  /** The decomposition made by `SplitAtom` is the only one of its kind. */
  lemma {:induction false} SplitAtomUnique(s: string, a: string, b: string)
    requires a + b == s
    requires NoDelimiter(a)
    requires b == [] || IsDelimiter(b[0])
    ensures SplitAtom(s) == (a, b)
  {
    if a == [] {
      assert s == b;
      assert SplitAtom(s) == ([], s);
    } else {
      assert s[0] == a[0] && s[1..] == a[1..] + b;
      SplitAtomUnique(s[1..], a[1..], b);
      assert SplitAtom(s) == ([s[0]] + a[1..], b);
      assert [a[0]] + a[1..] == a;
    }
  }

  /** Leading whitespace has no effect on what is read. */
  lemma {:induction false} TrimSpacesPrefix(sp: string, s: string)
    requires AllSpaces(sp)
    ensures TrimSpaces(sp + s) == TrimSpaces(s)
  {
    if sp != [] {
      var t := sp + s;
      assert IsSpace(sp[0]) && t[0] == sp[0];
      assert TrimSpaces(t) == TrimSpaces(t[1..]);
      assert t[1..] == sp[1..] + s;
      TrimSpacesPrefix(sp[1..], s);
    } else {
      assert sp + s == s;
    }
  }

  lemma ReadSkipsSpaces(sp: string, s: string)
    requires AllSpaces(sp)
    ensures ReadSpec(sp + s) == ReadSpec(s)
  {
    TrimSpacesPrefix(sp, s);
  }

  /** The error cases: the input is blank, or its first non-blank character is
      a parenthesis or a quote. */
  lemma ReadErrorIff(s: string)
    ensures ReadSpec(s).ErrorOut? <==>
              (TrimSpaces(s) == [] || TrimSpaces(s)[0] in {LPar, RPar, Quote})
  {
  }

  /** An atom read consumes at least one character, and what remains is a
      suffix of the input that is empty or starts with a delimiter. */
  lemma ReadConsumes(s: string)
    requires ReadSpec(s).AtomOut?
    ensures var next := ReadSpec(s).next;
            |next| < |s| && next == s[|s| - |next|..] && (next == [] || IsDelimiter(next[0]))
  {
    ReadAtomRest(s);
    AtomScanRest(s, TrimSpaces(s));
  }

  /** When a read yields an atom, the trimmed input starts with an atom
      character, the atom is the classification of the scanned text and the
      read leaves what the scan leaves. */
  lemma ReadAtomRest(s: string)
    requires ReadSpec(s).AtomOut?
    ensures var t := TrimSpaces(s);
            && t != [] && !IsDelimiter(t[0])
            && Classify(SplitAtom(t).0) == Returned(ReadSpec(s).atom)
            && ReadSpec(s).next == SplitAtom(t).1
  {
    var t := TrimSpaces(s);
    assert t != [] && !IsSpace(t[0]) && t[0] != RPar && t[0] != LPar && t[0] != Quote;
    assert ReadSpec(s) == AtomSpec(t);
    AtomSpecRest(t);
  }

  /** The scan of an atom at the start of a suffix `t` of `s` leaves a shorter
      suffix of `s` that is empty or starts with a delimiter. */
  lemma AtomScanRest(s: string, t: string)
    requires |t| <= |s| && t == s[|s| - |t|..] && t != [] && !IsDelimiter(t[0])
    ensures var n := SplitAtom(t).1;
            |n| < |s| && n == s[|s| - |n|..] && (n == [] || IsDelimiter(n[0]))
  {
    SplitAtomProgress(t);
    var p := SplitAtom(t);
    assert p.0 + p.1 == t;
    SuffixOfSuffix(s, t, p.0, p.1);
  }

  /** The scan of an atom that starts with an atom character consumes it. */
  lemma SplitAtomProgress(t: string)
    requires t != [] && !IsDelimiter(t[0])
    ensures |SplitAtom(t).1| < |t|
  {
    assert SplitAtom(t) == ([t[0]] + SplitAtom(t[1..]).0, SplitAtom(t[1..]).1);
  }

  lemma SuffixOfSuffix(s: string, t: string, a: string, n: string)
    requires |t| <= |s| && t == s[|s| - |t|..] && a + n == t
    ensures n == s[|s| - |n|..]
  {
    assert n == t[|a|..];
  }

  /** The rest left by an atom read is the rest left by the scan. */
  lemma AtomSpecRest(t: string)
    requires AtomSpec(t).AtomOut?
    ensures Classify(SplitAtom(t).0) == Returned(AtomSpec(t).atom)
    ensures AtomSpec(t).next == SplitAtom(t).1
  {
    var (text, next) := SplitAtom(t);
    match Classify(text)
    case Returned(a) =>
    case Overflow =>
  }

  /** Reading an atom's text followed by nothing or by a delimiter classifies
      exactly that text and leaves exactly what followed it. */
  lemma ReadAtomText(text: string, rest: string)
    requires text != [] && NoDelimiter(text)
    requires rest == [] || IsDelimiter(rest[0])
    ensures ReadSpec(text + rest) == match Classify(text)
                                     case Returned(a) => AtomOut(a, rest)
                                     case Overflow => Overflows
  {
    var s := text + rest;
    assert s[0] == text[0];
    assert TrimSpaces(s) == s;
    SplitAtomUnique(s, text, rest);
  }

  /** Every spelling of a number (optional sign, any leading zeros, then
      digits) reads as that number when it fits in 32 bits, and as an
      escaping overflow (never as a symbol) when it does not. */
  lemma ReadNumber(sign: string, z: nat, n: nat, rest: string)
    requires sign == "" || sign == "+" || sign == "-"
    requires rest == [] || IsDelimiter(rest[0])
    ensures var v := SignedValue(sign, n);
            ReadSpec(Spelling(sign, z, n) + rest) ==
              if InInt32Range(v) then AtomOut(NumAtom(v as Int32), rest) else Overflows
  {
    SpellingNoDelimiter(sign, z, n);
    SpellingRoundTrip(sign, z, n);
    ReadAtomText(Spelling(sign, z, n), rest);
  }

  /** The spelling of a number is one atom: non-empty and delimiter-free. */
  lemma SpellingNoDelimiter(sign: string, z: nat, n: nat)
    requires sign == "" || sign == "+" || sign == "-"
    ensures Spelling(sign, z, n) != [] && NoDelimiter(Spelling(sign, z, n))
  {
    SpellingChars(sign, z, n);
  }

  /** The text "nil" reads as the canonical `nil`, not as a symbol. */
  lemma ReadNil(rest: string)
    requires rest == [] || IsDelimiter(rest[0])
    ensures ReadSpec("nil" + rest) == AtomOut(NilAtom, rest)
  {
    assert ParseInt32("nil") == FormatFailure by {
      assert !IsDigit("nil"[0]);
    }
    ReadAtomText("nil", rest);
  }

  /** A symbol read is a non-empty, delimiter-free text that is neither an
      integer nor "nil", and it is exactly the first token of the input. */
  lemma ReadSymbol(s: string)
    requires ReadSpec(s).AtomOut? && ReadSpec(s).atom.SymAtom?
    ensures var t := ReadSpec(s).atom.text;
            && t != [] && t != "nil" && NoDelimiter(t)
            && ParseInt32(t) == FormatFailure
            && TrimSpaces(s) == t + ReadSpec(s).next
  {
    ReadAtomRest(s);
    var t := TrimSpaces(s);
    SplitAtomProgress(t);
    SplitAtomNoDelimiter(t);
    ClassifySymbol(SplitAtom(t).0, ReadSpec(s).atom.text);
  }

  /** Only a non-integer text other than "nil" is a symbol, and it is the
      symbol with that very text. */
  lemma ClassifySymbol(text: string, name: string)
    requires Classify(text) == Returned(SymAtom(name))
    ensures name == text && text != "nil" && ParseInt32(text) == FormatFailure
  {
  }

  /** Blank input is an error whatever the whitespace. */
  lemma ReadBlank(sp: string)
    requires AllSpaces(sp)
    ensures ReadSpec(sp) == ErrorOut("empty input")
  {
    assert sp + [] == sp;
    ReadSkipsSpaces(sp, []);
  }

  /** A stray closing parenthesis is reported together with the rest of the
      line. */
  lemma ReadStrayParen(rest: string)
    ensures ReadSpec([RPar] + rest) == ErrorOut("invalid syntax: )" + rest)
  {
    assert "invalid syntax: " + ([RPar] + rest) == "invalid syntax: )" + rest;
  }

  /** Lists and quoted forms are not read yet, whatever follows the opening
      character, even when a list is never closed. */
  lemma ReadStubs(rest: string)
    ensures ReadSpec([LPar] + rest) == ErrorOut("noimpl")
    ensures ReadSpec([Quote] + rest) == ErrorOut("noimpl")
  {
    var a, b := [LPar] + rest, [Quote] + rest;
    assert a[0] == LPar && TrimSpaces(a) == a;
    assert b[0] == Quote && TrimSpaces(b) == b;
  }

  /** A sign that is not followed by a digit is not a number: it is read as a
      symbol. */
  lemma ReadLoneSign(sign: char, rest: string)
    requires sign == '+' || sign == '-'
    requires rest == [] || IsDelimiter(rest[0])
    ensures ReadSpec([sign] + rest) == AtomOut(SymAtom([sign]), rest)
  {
    assert ParseInt32([sign]) == FormatFailure by {
      assert [sign][1..] == [];
    }
    assert [sign] != "nil";
    ReadAtomText([sign], rest);
  }
}
