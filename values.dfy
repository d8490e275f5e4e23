/** The value model of the interpreter: tagged objects, the mutable pair and
    closure records they may hold, and the process-wide state of `Util` (the
    canonical `nil` object and the symbol table), gathered in one `Util`
    object that is passed explicitly instead of living in static fields. */
module Values {
  import opened Numbers

  /** The seven variants of a Lisp object. */
  datatype Tag = Nil | Num | Sym | Error | Cons | Subr | Expr

  /** A builtin function. Nothing in the modelled code calls one, so it is an
      opaque handle that only identifies the builtin. */
  datatype SubrHandle = SubrHandle(id: nat)

  /** The untyped payload of an object, one box per dynamic type it can hold. */
  datatype Payload =
    | IntBox(n: Int32)
    | StrBox(s: string)
    | ConsBox(cell: Cons)
    | SubrBox(f: SubrHandle)
    | ExprBox(closure: Expr)

  /** A Lisp object: a tag and a payload, both fixed at construction. Objects
      are compared by identity, which is what makes symbol interning matter. */
  class LObj {
    const tag: Tag
    const data: Payload

    constructor (t: Tag, d: Payload)
      ensures tag == t && data == d
    {
      tag := t;
      data := d;
    }

    /** The payload box that the constructor helpers of `Util` pair with each tag. */
    predicate WellTagged() {
      match tag
      case Nil => data.StrBox?
      case Num => data.IntBox?
      case Sym => data.StrBox?
      case Error => data.StrBox?
      case Cons => data.ConsBox?
      case Subr => data.SubrBox?
      case Expr => data.ExprBox?
    }

    // The unchecked casts of the payload: each is defined only when the
    // payload really holds the requested type.

    function AsNum(): (r: Int32)
      requires data.IntBox?
      ensures data == IntBox(r)
    {
      data.n
    }

    function AsStr(): (r: string)
      requires data.StrBox?
      ensures data == StrBox(r)
    {
      data.s
    }

    function AsCons(): (r: Cons)
      requires data.ConsBox?
      ensures data == ConsBox(r)
    {
      data.cell
    }

    function AsSubr(): (r: SubrHandle)
      requires data.SubrBox?
      ensures data == SubrBox(r)
    {
      data.f
    }

    function AsExpr(): (r: Expr)
      requires data.ExprBox?
      ensures data == ExprBox(r)
    {
      data.closure
    }
  }

  /** A mutable pair. */
  class Cons {
    var car: LObj
    var cdr: LObj

    constructor (a: LObj, d: LObj)
      ensures car == a && cdr == d
    {
      car := a;
      cdr := d;
    }
  }

  /** A user-defined function: parameter list, body forms and captured environment. */
  class Expr {
    var args: LObj
    var body: LObj
    var env: LObj

    constructor (a: LObj, b: LObj, e: LObj)
      ensures args == a && body == b && env == e
    {
      args := a;
      body := b;
      env := e;
    }
  }

  /** `o` is the interned symbol for the text `s`. The text "nil" never has one. */
  predicate IsSymbolFor(o: LObj, s: string) {
    s != "nil" && o.tag == Tag.Sym && o.data == StrBox(s)
  }

  /** `m1` keeps every entry of `m0` unchanged. */
  ghost predicate Extends(m0: map<string, LObj>, m1: map<string, LObj>) {
    forall s :: s in m0 ==> s in m1 && m1[s] == m0[s]
  }

  /** The process-wide state and the constructor helpers of the value model. */
  class Util {
    /** The canonical empty list, the one object with tag `Nil`. */
    const nilObj: LObj
    /** The symbol table: text to the one symbol object with that text. */
    var symbolMap: map<string, LObj>

    ghost predicate Valid()
      reads this
    {
      && nilObj.tag == Tag.Nil && nilObj.data == StrBox("nil")
      && forall s :: s in symbolMap ==> IsSymbolFor(symbolMap[s], s)
    }

    /** Static initialisation: `nil` is created once and the table starts empty. */
    constructor ()
      ensures Valid() && fresh(nilObj) && symbolMap == map[]
    {
      nilObj := new LObj(Tag.Nil, StrBox("nil"));
      symbolMap := map[];
    }

    method MakeNum(n: Int32) returns (r: LObj)
      ensures fresh(r) && r.tag == Tag.Num && r.data == IntBox(n)
    {
      r := new LObj(Tag.Num, IntBox(n));
    }

    method MakeError(s: string) returns (r: LObj)
      ensures fresh(r) && r.tag == Tag.Error && r.data == StrBox(s)
    {
      r := new LObj(Tag.Error, StrBox(s));
    }

    /** A new pair; the safe projections give back exactly its two parts. */
    method MakeCons(a: LObj, d: LObj) returns (r: LObj)
      ensures fresh(r) && r.tag == Tag.Cons && r.WellTagged() && fresh(r.AsCons())
      ensures SafeCar(r) == a && SafeCdr(r) == d
    {
      var cell := new Cons(a, d);
      r := new LObj(Tag.Cons, ConsBox(cell));
    }

    method MakeSubr(f: SubrHandle) returns (r: LObj)
      ensures fresh(r) && r.tag == Tag.Subr && r.data == SubrBox(f)
    {
      r := new LObj(Tag.Subr, SubrBox(f));
    }

    /** A closure whose parameters are the head of `args`, whose body is the
        rest of `args` (both `nil` when `args` is not a pair) and whose
        environment is `env`. */
    method MakeExpr(args: LObj, env: LObj) returns (r: LObj)
      requires args.tag == Tag.Cons ==> args.data.ConsBox?
      ensures fresh(r) && r.tag == Tag.Expr && r.WellTagged() && fresh(r.AsExpr())
      ensures r.AsExpr().args == SafeCar(args)
      ensures r.AsExpr().body == SafeCdr(args)
      ensures r.AsExpr().env == env
    {
      var closure := new Expr(SafeCar(args), SafeCdr(args), env);
      r := new LObj(Tag.Expr, ExprBox(closure));
    }

    /** Interning: "nil" is the canonical `nil` and is never entered in the
        table; any other text yields the symbol the table already holds for
        it, or a new symbol that is entered. Existing entries never change. */
    method MakeSym(s: string) returns (r: LObj)
      requires Valid()
      modifies this`symbolMap
      ensures Valid()
      ensures Extends(old(symbolMap), symbolMap)
      ensures s == "nil" ==> r == nilObj && symbolMap == old(symbolMap)
      ensures s != "nil" ==> IsSymbolFor(r, s) && symbolMap == old(symbolMap)[s := r]
      ensures s != "nil" && s in old(symbolMap) ==> r == old(symbolMap)[s]
      ensures s != "nil" && s !in old(symbolMap) ==> fresh(r)
    {
      if s == "nil" {
        return nilObj;
      } else if s !in symbolMap {
        var sym := new LObj(Tag.Sym, StrBox(s));
        symbolMap := symbolMap[s := sym];
      }
      r := symbolMap[s];
    }

    /** The head of a pair, and `nil` for every other object; never fails. */
    function SafeCar(obj: LObj): (r: LObj)
      requires obj.tag == Tag.Cons ==> obj.data.ConsBox?
      reads if obj.data.ConsBox? then {obj.data.cell} else {}
      ensures obj.tag == Tag.Cons ==> r == obj.AsCons().car
      ensures obj.tag != Tag.Cons ==> r == nilObj
    {
      if obj.tag == Tag.Cons then obj.AsCons().car else nilObj
    }

    /** The tail of a pair, and `nil` for every other object; never fails. */
    function SafeCdr(obj: LObj): (r: LObj)
      requires obj.tag == Tag.Cons ==> obj.data.ConsBox?
      reads if obj.data.ConsBox? then {obj.data.cell} else {}
      ensures obj.tag == Tag.Cons ==> r == obj.AsCons().cdr
      ensures obj.tag != Tag.Cons ==> r == nilObj
    {
      if obj.tag == Tag.Cons then obj.AsCons().cdr else nilObj
    }
  }

  /** Two interning calls return the same object exactly when their texts are
      equal, whatever the table held before. */
  method InternTwice(u: Util, s1: string, s2: string) returns (a: LObj, b: LObj)
    requires u.Valid()
    modifies u`symbolMap
    ensures u.Valid() && Extends(old(u.symbolMap), u.symbolMap)
    ensures (a == b) <==> (s1 == s2)
  {
    a := u.MakeSym(s1);
    b := u.MakeSym(s2);
  }

  /** No object is the symbol of two texts, and none is the canonical `nil`. */
  lemma SymbolsAreDistinct(u: Util, s1: string, s2: string)
    requires u.Valid() && s1 in u.symbolMap && s2 in u.symbolMap
    ensures u.symbolMap[s1] != u.nilObj
    ensures u.symbolMap[s1] == u.symbolMap[s2] <==> s1 == s2
  {
  }
}
