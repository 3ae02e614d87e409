/**
 Three-valued logic, configuration symbols and dependency expressions
 (scripts/config/expr.h), with the value of an expression as
 expr_calc_value computes it.
 */
module Expressions {

  datatype Tristate = No | Mod | Yes

  /** The macro E_NOT: 2 - x. */
  function NotT(a: Tristate): Tristate {
    match a
    case No => Yes
    case Mod => Mod
    case Yes => No
  }

  /** The expression kinds E_AND and E_OR. */
  datatype Op = AndOp | OrOp

  /** The macros E_AND (minimum) and E_OR (maximum) on n < m < y. */
  function Apply(op: Op, a: Tristate, b: Tristate): Tristate {
    match op
    case AndOp => if a == No || b == No then No else if a == Mod || b == Mod then Mod else Yes
    case OrOp => if a == Yes || b == Yes then Yes else if a == Mod || b == Mod then Mod else No
  }

  /** n < m < y as an order. */
  predicate AtMost(a: Tristate, b: Tristate) {
    Apply(AndOp, a, b) == a
  }

  function NeutralT(op: Op): Tristate {
    if op == AndOp then Yes else No
  }

  function AbsorbingT(op: Op): Tristate {
    if op == AndOp then No else Yes
  }

  datatype SymType = SUnknown | SBoolean | STristate | SInt | SHex | SString | SOther

  /** Interning (sym_lookup) hands out the three built-in constants for these names. */
  type ConstName = s: string | s != "y" && s != "m" && s != "n" witness ""

  /** symbol_yes, symbol_mod, symbol_no, any other constant, or a configuration symbol. */
  datatype Symbol =
    | SymY
    | SymM
    | SymN
    | Const(text: ConstName)
    | Var(id: nat, stype: SymType)

  function TypeOf(s: Symbol): SymType {
    if s.Var? then s.stype else SUnknown
  }

  /** flags & SYMBOL_CONST */
  predicate IsConst(s: Symbol) {
    !s.Var?
  }

  function NeutralSym(op: Op): Symbol {
    if op == AndOp then SymY else SymN
  }

  function AbsorbingSym(op: Op): Symbol {
    if op == AndOp then SymN else SymY
  }

  /** curr.tri and what sym_get_string_value returns. */
  datatype Value = Value(tri: Tristate, str: string)

  function TriStr(t: Tristate): string {
    match t
    case No => "n"
    case Mod => "m"
    case Yes => "y"
  }

  lemma TriStrInjective(a: Tristate, b: Tristate)
    ensures TriStr(a) == TriStr(b) <==> a == b
  {
    assert TriStr(a)[0] == TriStr(b)[0] <==> a == b;
  }

  type Valuation = Symbol -> Value

  /** The values sym_calc_value can leave in a symbol of each type (symbol.c:285-334). */
  predicate RightValue(s: Symbol, x: Value) {
    match s
    case SymY => x == Value(Yes, "y")
    case SymM => x == Value(Mod, "m")
    case SymN => x == Value(No, "n")
    case Const(text) => x == Value(No, text)
    case Var(_, t) =>
      match t
      case SBoolean => x.tri != Mod && x.str == TriStr(x.tri)
      case STristate => x.str == TriStr(x.tri)
      case _ => x.tri == No
  }

  ghost predicate Respects(v: Valuation) {
    forall s :: RightValue(s, v(s))
  }

  /** Cmp(true, a, b) is E_EQUAL, Cmp(false, a, b) is E_UNEQUAL. */
  datatype Expr =
    | Sym(s: Symbol)
    | Cmp(eq: bool, lhs: Symbol, rhs: Symbol)
    | Not(e: Expr)
    | Bin(op: Op, l: Expr, r: Expr)

  function BoolT(b: bool): Tristate {
    if b then Yes else No
  }

  /** expr_calc_value */
  function Eval(e: Expr, v: Valuation): Tristate {
    match e
    case Sym(s) => v(s).tri
    case Cmp(eq, a, b) => BoolT((v(a).str == v(b).str) == eq)
    case Not(x) => NotT(Eval(x, v))
    case Bin(op, l, r) => Apply(op, Eval(l, v), Eval(r, v))
  }

  /** expr_calc_value of a pointer that may be NULL. */
  function EvalOpt(e: Options.Option<Expr>, v: Valuation): Tristate {
    if e.None? then Yes else Eval(e.value, v)
  }

  /** The symbols an expression reads. */
  function Mentions(e: Expr): set<Symbol> {
    match e
    case Sym(s) => {s}
    case Cmp(_, a, b) => {a, b}
    case Not(x) => Mentions(x)
    case Bin(_, l, r) => Mentions(l) + Mentions(r)
  }

  function Size(e: Expr): nat
    ensures Size(e) >= 1
  {
    match e
    case Sym(_) => 1
    case Cmp(_, _, _) => 1
    case Not(x) => 1 + Size(x)
    case Bin(_, l, r) => 1 + Size(l) + Size(r)
  }

  /** expr_alloc_and and expr_alloc_or */
  function AllocBin(op: Op, a: Options.Option<Expr>, b: Options.Option<Expr>): Options.Option<Expr> {
    if a.None? then b else if b.None? then a else Options.Some(Bin(op, a.value, b.value))
  }

  import Options
}
