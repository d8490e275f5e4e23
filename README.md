# A verified model of the CSharpLisp value model and atom reader

This project models, in Dafny, the early stage of a small Lisp interpreter
written in C# (`lisp.cs`). At this stage the program has two parts:

- **The value model.** A Lisp object (`LObj`) is a tag (`Nil`, `Num`, `Sym`,
  `Error`, `Cons`, `Subr`, `Expr`) plus an untyped payload. Pairs (`Cons`) and
  closures (`Expr`) are mutable records. The static class `Util` builds
  objects, projects pairs safely (`safeCar`/`safeCdr`) and interns symbols in
  a process-wide table. It also holds the canonical `nil` object `kNil`.
- **The reader.** It skips leading whitespace, rejects blank input and a stray
  `)`, and answers `(` and `'` with the stub error `"noimpl"`. Anything else
  is an atom. The atom is scanned up to the first delimiter: `(`, `)`, `'`,
  tab, CR, LF or space. Its text becomes a 32-bit number when `Int32.Parse`
  accepts it, and an interned symbol (or `nil`) when the parse fails with a
  format error.

The model has three modules:

- `Numbers` (numbers.dfy): the `Int32` range and a model of `Int32.Parse` on
  atom text. It describes every spelling `Int32.Parse` accepts (an optional
  sign, any leading zeros, then digits) and proves that parsing a spelling
  gives back its value, or an overflow when that value does not fit.
- `Values` (values.dfy): `LObj`, `Cons` and `Expr` as classes. The `Type`
  enum (lisp.cs:5) is the datatype `Values.Tag`. The static state of `Util`
  (`kNil`, `symbolMap`) becomes one `Util` object that every operation
  receives explicitly. `nilObj` is a `const` and `symbolMap` is a
  `map<string, LObj>` field. `LObj` has no `Equals` override, so two objects
  are the same only when they are the same reference; interning is what makes
  two symbols with the same text that one reference.
- `Reader` (reader.dfy): the reader as methods that follow the program's
  loops and branches. Each method is proved against a specification on text:
  `TrimSpaces`, `SplitAtom`, `Classify` and `ReadSpec`. The lemmas about the
  reader are stated on that specification. The `ParseState` class
  (lisp.cs:99-106) is the datatype `Reader.ParseState`.

The program's `Int32.Parse` throws `OverflowException` for a well-formed
number outside the 32-bit range. Only `FormatException` is caught, so the
overflow escapes `makeNumOrSym`, `readAtom` and `read`. The model makes this
escape explicit with the result type `Outcome` (`Returned(value)` or
`Overflow`), and `ReadNumber` proves that any spelling of a number, with or
without a sign or leading zeros, never becomes a symbol.

Lists and quotes are not read yet: `(` and `'` answer the error "noimpl",
whatever follows them.

## Model

| member | source | states |
|---|---|---|
| `Values.LObj.constructor` | lisp.cs:10-13 | an object keeps the tag and payload it was built with; both fields are immutable |
| `Values.Cons.constructor` | lisp.cs:36-39 | a pair starts with the given car and cdr |
| `Values.Expr.constructor` | lisp.cs:47-51 | a closure starts with the given parameters, body and environment |
| `Values.LObj.AsNum` | lisp.cs:15-17 | the cast is defined only on a payload that holds a 32-bit integer, and returns exactly that integer |
| `Values.LObj.AsStr` | lisp.cs:18-20 | the cast is defined only on a payload that holds a string, and returns exactly that string |
| `Values.LObj.AsCons` | lisp.cs:21-23 | the cast is defined only on a payload that holds a pair, and returns exactly that pair |
| `Values.LObj.AsSubr` | lisp.cs:24-26 | the cast is defined only on a payload that holds a builtin, and returns exactly that builtin |
| `Values.LObj.AsExpr` | lisp.cs:27-29 | the cast is defined only on a payload that holds a closure, and returns exactly that closure |
| `Values.Util.constructor` | lisp.cs:95-96 | static initialisation: one fresh `nil` object tagged `Nil` with text "nil", and an empty symbol table |
| `Values.Util.MakeNum` | lisp.cs:58-60 | a fresh object tagged `Num` that carries the given 32-bit integer |
| `Values.Util.MakeError` | lisp.cs:61-63 | a fresh object tagged `Error` that carries the message |
| `Values.Util.MakeCons` | lisp.cs:64-66 | a fresh `Cons` object around a fresh pair; `SafeCar` and `SafeCdr` of it give back exactly the two parts |
| `Values.Util.MakeSubr` | lisp.cs:67-69 | a fresh object tagged `Subr` that carries the builtin handle |
| `Values.Util.MakeExpr` | lisp.cs:70-72 | a fresh closure object whose parameters are `SafeCar(args)`, whose body is `SafeCdr(args)` and whose environment is `env` |
| `Values.Util.MakeSym` | lisp.cs:73-80 | "nil" gives the canonical `nil` and leaves the table unchanged; any other text gives a `Sym` object with that text, the entry already in the table if there is one, otherwise a fresh symbol that is added; existing entries never change and the table invariant is kept |
| `Values.Util.SafeCar` | lisp.cs:82-87 | the car of a `Cons` object and `nil` for every other tag; defined on every object whose `Cons` tag matches its payload |
| `Values.Util.SafeCdr` | lisp.cs:88-93 | the cdr of a `Cons` object and `nil` for every other tag; defined on every object whose `Cons` tag matches its payload |
| `Values.InternTwice` | lisp.cs:73-80 | two interning calls return the same object if and only if their texts are equal, from any valid table |
| `Values.SymbolsAreDistinct` | lisp.cs:73-80 | in a valid table no object is the symbol of two texts and none is the canonical `nil` |
| `Numbers.ParseInt32` | lisp.cs:128 | `Int32.Parse` on atom text: it fails with a format error unless the text is one or more digits, optionally after a single `+` or `-`; a negative result comes only from text that starts with `-` |
| `Numbers.NatTextValue` | lisp.cs:128 | the digits of the decimal spelling of a natural number evaluate back to that number |
| `Numbers.ZerosValue` | lisp.cs:128 | leading zeros do not change the value of a run of digits |
| `Numbers.ParseSignedDigits` | lisp.cs:128 | no sign, `+` or `-` followed by digits parses as the signed value of the digits, or as an overflow when that value does not fit in 32 bits |
| `Numbers.SpellingRoundTrip` | lisp.cs:128 | every spelling `Int32.Parse` accepts (optional sign, any leading zeros, digits) parses as its value when that fits in 32 bits and as an overflow otherwise, never as a format failure; so `+5`, `007` and `-0` give 5, 7 and 0 |
| `Numbers.DecimalRoundTrip` | lisp.cs:128 | parsing the decimal spelling of any integer gives that integer when it fits in 32 bits and an overflow failure otherwise, never a format failure |
| `Reader.IsSpace` | lisp.cs:109-111 | tab, CR, LF and space; each of them is also white space to `Int32.Parse`, which additionally takes vertical tab and form feed |
| `Reader.IsDelimiter` | lisp.cs:112-114 | `(`, `)`, `'` and whitespace; no delimiter is a digit or a sign, so a scan never cuts through a number |
| `Reader.TrimSpaces` | lisp.cs:116-124 | the result is a suffix of the input that is empty or starts with a non-space character |
| `Reader.TrimSpacesDropsSpaces` | lisp.cs:116-124 | every character the trim removes is tab, CR, LF or space |
| `Reader.SkipSpaces` | lisp.cs:116-124 | the index loop returns exactly `TrimSpaces` of its input |
| `Reader.TrimSpacesPrefix` | lisp.cs:116-124 | trimming ignores any prefix of whitespace |
| `Reader.SplitAtom` | lisp.cs:138-148 | the atom text followed by the remainder is the input, and the remainder is empty or starts with a delimiter |
| `Reader.SplitAtomNoDelimiter` | lisp.cs:138-148 | the atom text contains no delimiter |
| `Reader.SplitAtomUnique` | lisp.cs:138-148 | any split into a delimiter-free prefix and a remainder that is empty or starts with a delimiter is the split `SplitAtom` makes |
| `Reader.SplitAtomProgress` | lisp.cs:138-148 | an input that starts with a non-delimiter yields a non-empty atom, so the remainder is shorter than the input |
| `Reader.MakeNumOrSym` | lisp.cs:126-132 | text that `Int32.Parse` accepts gives a fresh `Num` with its value; a format failure gives the interned symbol, or `nil` for "nil", and adds at most that text to the table; an overflow escapes and leaves the table unchanged |
| `Reader.ParseError` | lisp.cs:134-136 | a fresh `Error` object with the message and an empty remainder |
| `Reader.ReadAtom` | lisp.cs:138-148 | the scan loop splits the input as `SplitAtom` does; the object and remainder are those the specification gives for the atom text, and the symbol table gains exactly the new symbol |
| `Reader.Read` | lisp.cs:150-162 | the result matches `ReadSpec`: "empty input" for blank input, "invalid syntax: " plus the trimmed text for a leading `)`, "noimpl" for `(` and `'`, and otherwise the atom read; errors always have an empty remainder and are fresh objects |
| `Reader.ReadTwice` | lisp.cs:150-162 | two reads that each yield a symbol return the same object if and only if the two symbols have the same text |
| `Reader.AtomSpecRest` | lisp.cs:138-148 | an atom outcome classifies the scanned text and leaves the scan's remainder |
| `Reader.ReadAtomRest` | lisp.cs:150-161 | when a read yields an atom, the trimmed input starts with an atom character and the read leaves what the scan leaves |
| `Reader.AtomScanRest` | lisp.cs:138-148 | scanning an atom at the start of a suffix of the input leaves a shorter suffix that is empty or starts with a delimiter |
| `Reader.SuffixOfSuffix` | lisp.cs:142-143 | the remainder cut from a suffix of the input is itself a suffix of the input |
| `Reader.ReadSkipsSpaces` | lisp.cs:150-151 | leading whitespace never changes what is read |
| `Reader.ReadErrorIff` | lisp.cs:150-160 | a read is an error exactly when the trimmed input is empty or starts with `(`, `)` or `'` |
| `Reader.ReadConsumes` | lisp.cs:138-161 | an atom read consumes at least one character and leaves a suffix of the input that is empty or starts with a delimiter |
| `Reader.ReadAtomText` | lisp.cs:126-148 | atom text followed by nothing or by a delimiter reads as the classification of exactly that text, with exactly what followed as the remainder |
| `Reader.ReadNumber` | lisp.cs:126-132 | every spelling of an integer (no sign, `+` or `-`, any leading zeros, then digits), followed by nothing or a delimiter, reads as that number when it fits in 32 bits and as an escaping overflow otherwise, never as a symbol |
| `Reader.ReadNil` | lisp.cs:73-75 | the text "nil" reads as the canonical `nil`, not as a symbol |
| `Reader.ReadSymbol` | lisp.cs:126-148 | a symbol read is non-empty, delimiter-free, not an integer and not "nil", and it is exactly the first token of the trimmed input |
| `Reader.ClassifySymbol` | lisp.cs:126-132 | only non-integer text other than "nil" becomes a symbol, and the symbol carries that very text |
| `Reader.ReadBlank` | lisp.cs:152-153 | input made only of whitespace reads as the error "empty input" |
| `Reader.ReadStrayParen` | lisp.cs:154-155 | `)` followed by anything reads as "invalid syntax: )" followed by the same text |
| `Reader.ReadStubs` | lisp.cs:156-159 | `(` or `'` followed by anything reads as "noimpl", including a list that is never closed |
| `Reader.ReadLoneSign` | lisp.cs:126-132 | a `+` or `-` with no digits after it is read as a symbol, not a number |

## Left out

- `Lisp.Main` (lisp.cs:169-177) is a console loop: it reads lines and writes the default text of the result object. It is I/O only. `LObj` has no printer to model.
- Calling a `Subr`: the delegate is a host function that nothing in this code invokes. `SubrHandle` only identifies it.
- Two details of `Int32.Parse` are not modelled. The first is culture-specific sign symbols. The second is the white space and trailing NUL characters that its default style accepts around a number. An atom never holds tab, CR, LF or space, but it may hold a vertical tab or form feed; the model treats such an atom as non-numeric.
- The unchecked casts `num()`, `str()`, `cons()`, `subr()` and `expr()` are modelled as functions whose precondition is that the cast succeeds. A failing cast, which is a programming error, is not modelled.
- `ParseState` is a record here. Its public fields are never changed after construction in this code.
- The C# statics `kNil` and `symbolMap` are fields of one `Util` object passed to each operation. This relies on the program being single-threaded, which it is.
- The evaluator, printer, list reading, quote expansion, `nreverse` and `pairlis` are not part of this model: `lisp.cs` does not contain them yet.
- C# strings are sequences of UTF-16 code units, while a string here is a sequence of Unicode scalar values, so a lone surrogate cannot be represented. The reader is unaffected: every character it tests is ASCII.
