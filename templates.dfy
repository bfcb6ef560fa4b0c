/** Kernel source templates: a printf format string seen as its literal runs
    and the typed slots between them (%s takes a string, %d an int), and its
    instantiation with an argument list. */
module Templates {

  datatype Kind = StrSlot | IntSlot

  datatype Arg = Str(s: string) | Int(n: int)

  /** A format: lits[0], slots[0], lits[1], ..., slots[n-1], lits[n]. */
  datatype Template = Template(lits: seq<string>, slots: seq<Kind>)

  predicate WellFormed(t: Template)
  {
    |t.lits| == |t.slots| + 1
  }

  function KindOf(a: Arg): Kind
  {
    if a.Str? then StrSlot else IntSlot
  }

  function Kinds(args: seq<Arg>): (ks: seq<Kind>)
    ensures |ks| == |args|
    ensures forall i :: 0 <= i < |args| ==> ks[i] == KindOf(args[i])
  {
    if args == [] then [] else [KindOf(args[0])] + Kinds(args[1..])
  }

  /** The argument list matches the slots in number and kind: what printf
      requires of its variadic arguments. */
  predicate Fits(t: Template, args: seq<Arg>)
  {
    WellFormed(t) && Kinds(args) == t.slots
  }

  /** A part of the text after substitution: a literal run, or the argument a
      slot received. */
  datatype Piece = Text(text: string) | Value(arg: Arg)

  /** printf's substitution: each slot, in order, receives the next argument. */
  function Pieces(lits: seq<string>, args: seq<Arg>): (ps: seq<Piece>)
    requires |lits| == |args| + 1
    ensures |ps| == 2 * |args| + 1
  {
    if args == [] then [Text(lits[0])]
    else [Text(lits[0]), Value(args[0])] + Pieces(lits[1..], args[1..])
  }

  function Instantiate(t: Template, args: seq<Arg>): seq<Piece>
    requires Fits(t, args)
  {
    Pieces(t.lits, args)
  }

  /** The arguments and the literal runs that a piece list carries, in order. */
  function Values(ps: seq<Piece>): seq<Arg>
  {
    if ps == [] then [] else (if ps[0].Value? then [ps[0].arg] else []) + Values(ps[1..])
  }

  function Texts(ps: seq<Piece>): seq<string>
  {
    if ps == [] then [] else (if ps[0].Text? then [ps[0].text] else []) + Texts(ps[1..])
  }

  /** Substitution keeps every argument and every literal run, in order, and
      adds nothing. */
  lemma {:induction false} PiecesRoundTrip(lits: seq<string>, args: seq<Arg>)
    requires |lits| == |args| + 1
    ensures Values(Pieces(lits, args)) == args
    ensures Texts(Pieces(lits, args)) == lits
    decreases |args|
  {
    if args != [] {
      var ps := Pieces(lits, args);
      PiecesRoundTrip(lits[1..], args[1..]);
      assert ps[1..][1..] == Pieces(lits[1..], args[1..]);
    }
  }

  /** Slot j is piece 2j+1 and holds argument j; literal run j is piece 2j. */
  lemma {:induction false} PieceAt(lits: seq<string>, args: seq<Arg>, j: nat)
    requires |lits| == |args| + 1 && j < |lits|
    ensures Pieces(lits, args)[2 * j] == Text(lits[j])
    ensures j < |args| ==> Pieces(lits, args)[2 * j + 1] == Value(args[j])
    decreases j
  {
    if j > 0 {
      PieceAt(lits[1..], args[1..], j - 1);
    }
  }

  /** Text of an int as %d prints it. */
  function Decimal(n: int): (s: string)
    ensures |s| >= 1
    ensures n >= 0 ==> forall k :: 0 <= k < |s| ==> '0' <= s[k] <= '9'
    ensures n < 0 ==> s[0] == '-'
  {
    if n < 0 then "-" + Digits(-n) else Digits(n)
  }

  function Digits(n: nat): (s: string)
    ensures |s| >= 1
    ensures forall k :: 0 <= k < |s| ==> '0' <= s[k] <= '9'
    decreases n
  {
    var d := ['0' + (n % 10) as char];
    if n < 10 then d else Digits(n / 10) + d
  }

  /** Reading a run of decimal digits. */
  function DigitsValue(s: string): nat
    requires forall k :: 0 <= k < |s| ==> '0' <= s[k] <= '9'
  {
    if s == [] then 0 else 10 * DigitsValue(s[..|s| - 1]) + (s[|s| - 1] - '0') as nat
  }

  /** The digits printed for n read back as n. */
  lemma {:induction false} DigitsRoundTrip(n: nat)
    ensures DigitsValue(Digits(n)) == n
    decreases n
  {
    var d := ['0' + (n % 10) as char];
    if n >= 10 {
      DigitsRoundTrip(n / 10);
      var s := Digits(n / 10) + d;
      assert s[..|s| - 1] == Digits(n / 10);
    }
  }

  function PieceText(p: Piece): string
  {
    match p
    case Text(s) => s
    case Value(Str(s)) => s
    case Value(Int(n)) => Decimal(n)
  }

  function Render(ps: seq<Piece>): string
  {
    if ps == [] then [] else PieceText(ps[0]) + Render(ps[1..])
  }

  /** The text printf produces for a template and fitting arguments. */
  function Format(t: Template, args: seq<Arg>): string
    requires Fits(t, args)
  {
    Render(Instantiate(t, args))
  }
}
