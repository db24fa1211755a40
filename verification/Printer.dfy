/**
 The canonical term printer: atoms quoted where a reader needs it, lists and
 structures without spaces, integers cut to a C int. A reader of the printed text
 gets back the term that was printed, up to the cut.
 */
module Printer {
  import opened CInts

  datatype Term =
    | Atom(name: string)
    | Int(n: int)
    | Nil
    | List(car: Term, cdr: Term)
    | Struct(functor: string, args: seq<Term>)

  /** Every structure has an argument; a structure without prints as an atom does. */
  ghost predicate Positive(t: Term) {
    match t
    case List(a, b) => Positive(a) && Positive(b)
    case Struct(_, args) => args != [] && forall i :: 0 <= i < |args| ==> Positive(args[i])
    case _ => true
  }

  /** The term as its text shows it: integers cut to a C int, a structure without arguments as an atom. */
  function Shown(t: Term): Term {
    match t
    case Int(n) => Int(ToCInt(n))
    case List(a, b) => List(Shown(a), Shown(b))
    case Struct(f, args) => if args == [] then Atom(f) else Struct(f, seq(|args|, i requires 0 <= i < |args| => Shown(args[i])))
    case _ => t
  }

  ghost predicate InRange(t: Term) {
    match t
    case Int(n) => -0x8000_0000 <= n <= 0x7fff_ffff
    case List(a, b) => InRange(a) && InRange(b)
    case Struct(_, args) => forall i :: 0 <= i < |args| ==> InRange(args[i])
    case _ => true
  }

  // ----- the text of a term -----

  predicate Lower(c: char) {
    'a' <= c <= 'z'
  }

  predicate Digit(c: char) {
    '0' <= c <= '9'
  }

  predicate NameChar(c: char) {
    Lower(c) || 'A' <= c <= 'Z' || c == '_' || Digit(c)
  }

  ghost predicate Plain(atom: string) {
    atom != "" && Lower(atom[0]) && forall i :: 0 < i < |atom| ==> NameChar(atom[i])
  }

  const SMALL := "abcdefghijklmnopqrstuvwxyz"
  const CAPITAL := "ABCDEFGHIJKLMNOPQRSTUVWXYZ"
  const DIGITS := "0123456789"

  lemma SmallIn(c: char)
    ensures Lower(c) <==> c in SMALL
  {
    if Lower(c) { assert SMALL[c as int - 'a' as int] == c; }
  }

  lemma CapitalIn(c: char)
    ensures 'A' <= c <= 'Z' <==> c in CAPITAL
  {
    if 'A' <= c <= 'Z' { assert CAPITAL[c as int - 'A' as int] == c; }
  }

  lemma DigitIn(c: char)
    ensures Digit(c) <==> c in DIGITS
  {
    if Digit(c) { assert DIGITS[c as int - '0' as int] == c; }
  }

  /** Exactly the atoms that go without quotes. */
  lemma UnquotedIff(atom: string)
    ensures Quoted(atom, false) == atom <==>
      && atom != "" && atom[0] in SMALL
      && forall i :: 0 <= i < |atom| ==> atom[i] in SMALL || atom[i] in CAPITAL || atom[i] in DIGITS || atom[i] == '_'
  {
    forall i | 0 <= i < |atom|
      ensures NameChar(atom[i]) <==> atom[i] in SMALL || atom[i] in CAPITAL || atom[i] in DIGITS || atom[i] == '_'
      ensures Lower(atom[i]) <==> atom[i] in SMALL
    {
      SmallIn(atom[i]);
      CapitalIn(atom[i]);
      DigitIn(atom[i]);
    }
    if !Plain(atom) { DoubledGrows(atom); }
  }

  lemma {:induction false} DoubledGrows(atom: string)
    ensures |Doubled(atom)| >= |atom|
  {
    if atom != "" { DoubledGrows(atom[1..]); }
  }

  ghost function Doubled(atom: string): string {
    if atom == "" then "" else (if atom[0] == '\'' then "''" else [atom[0]]) + Doubled(atom[1..])
  }

  ghost function Quoted(atom: string, toplevel: bool): string {
    if toplevel || Plain(atom) then atom else "'" + Doubled(atom) + "'"
  }

  function Digits(n: nat): (s: string)
    ensures s != "" && Digit(s[0])
  {
    if n < 10 then ['0' + n as char] else Digits(n / 10) + ['0' + (n % 10) as char]
  }

  function Decimal(n: int): string {
    if n < 0 then "-" + Digits(-n) else Digits(n)
  }

  ghost function Text(t: Term, toplevel: bool): string {
    match t
    case Atom(name) => Quoted(name, toplevel)
    case Int(n) => Decimal(ToCInt(n))
    case Nil => "[]"
    case List(a, b) => "[" + Text(a, false) + TailText(b) + "]"
    case Struct(f, args) => Quoted(f, false) + (if args == [] then "" else "(" + ArgsText(args) + ")")
  }

  /** What follows the first element of a list, up to the closing bracket. */
  ghost function TailText(t: Term): string {
    match t
    case Nil => ""
    case List(a, b) => "," + Text(a, false) + TailText(b)
    case _ => "|" + Text(t, false)
  }

  ghost function ArgsText(ts: seq<Term>): string {
    if ts == [] then "" else Text(ts[0], false) + (if |ts| == 1 then "" else "," + ArgsText(ts[1..]))
  }

  // ----- printing -----

  class Printer {
    var text: string

    constructor ()
      ensures text == ""
    {
      text := "";
    }

    method MustQuote(atom: string) returns (b: bool)
      ensures b <==> !Plain(atom)
    {
      if atom == "" || !Lower(atom[0]) { return true; }
      var i := 1;
      while i < |atom|
        invariant 1 <= i <= |atom| && forall j :: 0 < j < i ==> NameChar(atom[j])
      {
        if !NameChar(atom[i]) { return true; }
        i := i + 1;
      }
      b := false;
    }

    method PrintPString(atom: string, toplevel: bool)
      modifies this
      ensures text == old(text) + Quoted(atom, toplevel)
    {
      var must := MustQuote(atom);
      if toplevel || !must {
        text := text + atom;
      } else {
        text := text + "'";
        var i := 0;
        while i < |atom|
          invariant 0 <= i <= |atom| && text + Doubled(atom[i..]) == old(text) + "'" + Doubled(atom)
        {
          ghost var was := text;
          text := text + [atom[i]];
          if atom[i] == '\'' { text := text + "'"; }
          assert text == was + (if atom[i] == '\'' then "''" else [atom[i]]);
          Regroup(was, if atom[i] == '\'' then "''" else [atom[i]], Doubled(atom[i + 1..]));
          i := i + 1;
        }
        assert text + "" == text == old(text) + "'" + Doubled(atom);
        text := text + "'";
        Wrapped(old(text), "'", Doubled(atom), "'");
      }
    }

    /** Appends a term; the last argument of a structure is printed in the same loop. */
    method PrintPTerm(t0: Term, toplevel0: bool)
      modifies this
      ensures text == old(text) + Text(t0, toplevel0)
      decreases t0
    {
      var t, toplevel, parens := t0, toplevel0, 0;
      while t.Struct? && t.args != []
        invariant 0 <= parens && text + Text(t, toplevel) + Closing(parens) == old(text) + Text(t0, toplevel0)
        invariant t == t0 || t < t0
        decreases t
      {
        ghost var was, last := text, t.args[|t.args| - 1];
        PrintPString(t.functor, false);
        text := text + "(";
        PrintArgs(t.args);
        Opened(was, text, Quoted(t.functor, false), ArgsText(t.args), Text(last, false), Closing(parens));
        parens := parens + 1;
        t, toplevel := t.args[|t.args| - 1], false;
      }
      ghost var was := text;
      match t {
        case Atom(name) => PrintPString(name, toplevel);
        case Int(n) => text := text + Decimal(ToCInt(n));
        case Nil => text := text + "[]";
        case List(_, _) => PrintList(t);
        case Struct(f, _) => PrintPString(f, false);
      }
      assert text == was + Text(t, toplevel);
      var i := 0;
      while i < parens
        invariant 0 <= i <= parens && text + Closing(parens - i) == old(text) + Text(t0, toplevel0)
      {
        Regroup(text, ")", Closing(parens - i - 1));
        text := text + ")";
        i := i + 1;
      }
      assert text + "" == text;
    }

    /** The arguments but the last, each with a comma after it. */
    method PrintArgs(args: seq<Term>)
      requires args != []
      modifies this
      ensures text + Text(args[|args| - 1], false) == old(text) + ArgsText(args)
      decreases args, 0
    {
      var i := 0;
      while i < |args| - 1
        invariant 0 <= i <= |args| - 1 && text + ArgsText(args[i..]) == old(text) + ArgsText(args)
      {
        Regroup3(text, Text(args[i], false), ",", ArgsText(args[i + 1..]));
        PrintPTerm(args[i], false);
        text := text + ",";
        i := i + 1;
      }
    }

    method PrintList(t0: Term)
      requires t0.List?
      modifies this
      ensures text == old(text) + Text(t0, false)
      decreases t0, 0
    {
      text := text + "[";
      PrintPTerm(t0.car, false);
      var t := t0.cdr;
      Bracketed(old(text), Text(t0.car, false), TailText(t));
      while t.List?
        invariant text + TailText(t) + "]" == old(text) + Text(t0, false)
        invariant t < t0
        decreases t
      {
        Regroup3(text, ",", Text(t.car, false), TailText(t.cdr));
        text := text + ",";
        PrintPTerm(t.car, false);
        t := t.cdr;
      }
      if t == Nil { assert text + "" == text; } else { Regroup(text, "|", Text(t, false)); }
      if t != Nil {
        text := text + "|";
        PrintPTerm(t, false);
      }
      text := text + "]";
    }
  }

  lemma Regroup(a: string, b: string, c: string)
    ensures (a + b) + c == a + (b + c)
  {
  }

  lemma Regroup3(a: string, b: string, c: string, d: string)
    ensures ((a + b) + c) + d == a + (b + (c + d)) && (b + c) + d == b + (c + d)
  {
    Regroup(a, b, c + d);
  }

  lemma Wrapped(a: string, b: string, c: string, d: string)
    ensures ((a + b) + c) + d == a + ((b + c) + d)
  {
  }

  lemma Bracketed(a: string, b: string, c: string)
    ensures ((a + "[") + b) + c + "]" == a + ((("[" + b) + c) + "]")
  {
  }

  lemma Opened(before: string, after: string, functor: string, args: string, last: string, closing: string)
    requires after + last == ((before + functor) + "(") + args
    ensures (after + last) + (")" + closing) == (before + (functor + (("(" + args) + ")"))) + closing
    ensures (after + last) + (")" + closing) == after + last + ")" + closing
  {
    Regroup3(before, functor, "(", args);
    Wrapped("", "(", args, ")");
    Regroup(before, functor + ("(" + args), ")");
  }

  ghost function Closing(n: nat): string {
    if n == 0 then "" else ")" + Closing(n - 1)
  }
}
