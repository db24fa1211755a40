/**
 A reader of printed terms, and the round trip: what print_pterm writes is read back
 as the term printed, so different terms have different texts.
 */
module PrinterReader {
  import opened CInts
  import opened Printer

  datatype Read<T> = Got(value: T, rest: string) | Bad

  // ----- numbers and names -----

  function Value(c: char): nat
    requires Digit(c)
  {
    c as nat - '0' as nat
  }

  function ReadNat(s: string, acc: nat): (r: Read<nat>)
    ensures r.Got? && |r.rest| <= |s|
  {
    if s != "" && Digit(s[0]) then ReadNat(s[1..], acc * 10 + Value(s[0])) else Got(acc, s)
  }

  function ReadInt(s: string): (r: Read<Term>)
    ensures r.Got? ==> |r.rest| < |s|
  {
    if s != "" && s[0] == '-' then
      if |s| > 1 && Digit(s[1]) then
        var r := ReadNat(s[1..], 0);
        Got(Int(0 - r.value), r.rest)
      else Bad
    else if s != "" && Digit(s[0]) then
      var r := ReadNat(s[1..], Value(s[0]));
      Got(Int(r.value), r.rest)
    else Bad
  }

  function ReadPlain(s: string): (r: Read<string>)
    ensures r.Got? && |r.rest| <= |s|
    ensures s != "" && NameChar(s[0]) ==> |r.rest| < |s|
  {
    if s != "" && NameChar(s[0]) then
      var r := ReadPlain(s[1..]);
      Got([s[0]] + r.value, r.rest)
    else Got("", s)
  }

  /** After an opening quote, up to the closing one. */
  function ReadQuoted(s: string): (r: Read<string>)
    ensures r.Got? ==> |r.rest| <= |s|
  {
    if s == "" then Bad
    else if s[0] != '\'' then
      match ReadQuoted(s[1..])
      case Got(a, rest) => Got([s[0]] + a, rest)
      case Bad => Bad
    else if |s| > 1 && s[1] == '\'' then
      match ReadQuoted(s[2..])
      case Got(a, rest) => Got("'" + a, rest)
      case Bad => Bad
    else Got("", s[1..])
  }

  function ReadName(s: string): (r: Read<string>)
    ensures r.Got? ==> |r.rest| < |s|
  {
    if s == "" then Bad
    else if s[0] == '\'' then ReadQuoted(s[1..])
    else if Lower(s[0]) then ReadPlain(s)
    else Bad
  }

  // ----- terms -----

  function ReadTerm(s: string): (r: Read<Term>)
    ensures r.Got? ==> |r.rest| < |s|
    decreases |s|, 1
  {
    if s == "" then Bad
    else if s[0] == '[' then
      if |s| > 1 && s[1] == ']' then Got(Nil, s[2..])
      else
        match ReadTerm(s[1..])
        case Got(a, rest) =>
          (match ReadTail(rest)
           case Got(b, rest') => Got(List(a, b), rest')
           case Bad => Bad)
        case Bad => Bad
    else if s[0] == '-' || Digit(s[0]) then ReadInt(s)
    else
      match ReadName(s)
      case Got(f, rest) =>
        if rest != "" && rest[0] == '(' then
          (match ReadArgs(rest[1..])
           case Got(args, rest') => Got(Struct(f, args), rest')
           case Bad => Bad)
        else Got(Atom(f), rest)
      case Bad => Bad
  }

  function ReadTail(s: string): (r: Read<Term>)
    ensures r.Got? ==> |r.rest| < |s|
    decreases |s|, 0
  {
    if s == "" then Bad
    else if s[0] == ']' then Got(Nil, s[1..])
    else if s[0] == ',' then
      match ReadTerm(s[1..])
      case Got(a, rest) =>
        (match ReadTail(rest)
         case Got(b, rest') => Got(List(a, b), rest')
         case Bad => Bad)
      case Bad => Bad
    else if s[0] == '|' then
      match ReadTerm(s[1..])
      case Got(a, rest) => if rest != "" && rest[0] == ']' then Got(a, rest[1..]) else Bad
      case Bad => Bad
    else Bad
  }

  function ReadArgs(s: string): (r: Read<seq<Term>>)
    ensures r.Got? ==> |r.rest| < |s| && r.value != []
    decreases |s|, 2
  {
    match ReadTerm(s)
    case Got(a, rest) =>
      if rest != "" && rest[0] == ',' then
        (match ReadArgs(rest[1..])
         case Got(args, rest') => Got([a] + args, rest')
         case Bad => Bad)
      else if rest != "" && rest[0] == ')' then Got([a], rest[1..])
      else Bad
    case Bad => Bad
  }

  // ----- reading numbers and names back -----

  /** What may follow a printed term. */
  predicate Follows(s: string) {
    s == "" || s[0] in {',', '|', ']', ')'}
  }

  lemma {:induction false} DigitsRead(m: nat, rest: string)
    ensures ReadNat(Digits(m) + rest, 0) == ReadNat(rest, m)
  {
    if m < 10 {
      OneDigit(m, rest, 0);
    } else {
      var d := ['0' + (m % 10) as char];
      assert (Digits(m / 10) + d) + rest == Digits(m / 10) + (d + rest);
      DigitsRead(m / 10, d + rest);
      OneDigit(m % 10, rest, m / 10);
    }
  }

  lemma OneDigit(d: nat, rest: string, acc: nat)
    requires d < 10
    ensures ReadNat(['0' + d as char] + rest, acc) == ReadNat(rest, acc * 10 + d)
  {
    var s := ['0' + d as char] + rest;
    assert s[0] == '0' + d as char && s[1..] == rest && Value(s[0]) == d;
  }

  lemma IntRead(n: int, rest: string)
    requires Follows(rest)
    ensures ReadTerm(Decimal(n) + rest) == Got(Int(n), rest)
  {
    if n < 0 { NegativeRead(-n, rest); } else { NaturalRead(n, rest); }
  }

  lemma NegativeRead(n: nat, rest: string)
    requires Follows(rest)
    ensures ReadTerm("-" + Digits(n) + rest) == Got(Int(0 - n), rest)
  {
    var s := "-" + Digits(n) + rest;
    DigitsRead(n, rest);
    assert s[0] == '-' && s[1..] == Digits(n) + rest;
    assert s[1] == Digits(n)[0];
  }

  lemma NaturalRead(n: nat, rest: string)
    requires Follows(rest)
    ensures ReadTerm(Digits(n) + rest) == Got(Int(n), rest)
  {
    var s := Digits(n) + rest;
    DigitsRead(n, rest);
    assert s[0] == Digits(n)[0];
    assert ReadNat(s, 0) == ReadNat(s[1..], Value(s[0]));
  }

  lemma {:induction false} PlainRead(a: string, rest: string)
    requires (forall i :: 0 <= i < |a| ==> NameChar(a[i])) && (rest == "" || !NameChar(rest[0]))
    ensures ReadPlain(a + rest) == Got(a, rest)
  {
    if a == "" {
      assert a + rest == rest;
    } else {
      PlainRead(a[1..], rest);
      assert (a + rest)[1..] == a[1..] + rest && (a + rest)[0] == a[0];
      assert a == [a[0]] + a[1..];
    }
  }

  lemma {:induction false} QuotedRead(a: string, rest: string)
    requires rest == "" || rest[0] != '\''
    ensures ReadQuoted(Doubled(a) + "'" + rest) == Got(a, rest)
  {
    if a == "" {
      var s := Doubled(a) + "'" + rest;
      assert s == "'" + rest && s[0] == '\'' && s[1..] == rest;
    } else {
      QuotedRead(a[1..], rest);
      var tail := Doubled(a[1..]) + "'" + rest;
      var first := if a[0] == '\'' then "''" else [a[0]];
      var s := Doubled(a) + "'" + rest;
      assert s == first + tail;
      assert a == [a[0]] + a[1..];
      if a[0] == '\'' { assert s[2..] == tail && s[1] == '\''; } else { assert s[1..] == tail; }
    }
  }

  lemma NameRead(a: string, rest: string)
    requires rest == "" || rest[0] in {',', '|', ']', ')', '('}
    ensures ReadName(Quoted(a, false) + rest) == Got(a, rest)
    ensures var s := Quoted(a, false) + rest; s != "" && s[0] != '[' && s[0] != '-' && !Digit(s[0])
  {
    if Plain(a) { PlainNameRead(a, rest); } else { QuotedNameRead(a, rest); }
  }

  lemma PlainNameRead(a: string, rest: string)
    requires Plain(a) && (rest == "" || !NameChar(rest[0]))
    ensures ReadName(a + rest) == Got(a, rest) && (a + rest) != "" && (a + rest)[0] == a[0]
  {
    assert forall i :: 0 <= i < |a| ==> NameChar(a[i]);
    PlainRead(a, rest);
    assert (a + rest)[0] == a[0];
  }

  lemma QuotedNameRead(a: string, rest: string)
    requires rest == "" || rest[0] != '\''
    ensures var s := "'" + Doubled(a) + "'" + rest; ReadName(s) == Got(a, rest) && s != "" && s[0] == '\''
  {
    var s, tail := "'" + Doubled(a) + "'" + rest, Doubled(a) + "'" + rest;
    QuotedRead(a, rest);
    Regroup3("'", Doubled(a), "'", rest);
    Regroup(Doubled(a), "'", rest);
    assert s == "'" + tail;
    assert s[0] == '\'' && s[1..] == tail;
  }

  // ----- reading terms back -----

  lemma TextStarts(t: Term)
    ensures Text(t, false) != "" && Text(t, false)[0] != ']'
  {
    match t
    case Atom(name) => NameRead(name, "");
    case Struct(f, _) => NameRead(f, "");
    case _ =>
  }

  // One step of the reader each, on a text already taken apart.

  lemma ReadsList(body: string, tail: string, rest: string, a: Term, b: Term)
    requires body != "" && body[0] != ']' && ReadTerm(body) == Got(a, tail) && ReadTail(tail) == Got(b, rest)
    ensures ReadTerm("[" + body) == Got(List(a, b), rest)
  {
    var s := "[" + body;
    assert s[0] == '[' && s[1] == body[0] && s[1..] == body;
  }

  lemma ReadsMore(body: string, tail: string, rest: string, a: Term, b: Term)
    requires ReadTerm(body) == Got(a, tail) && ReadTail(tail) == Got(b, rest)
    ensures ReadTail("," + body) == Got(List(a, b), rest)
  {
    var s := "," + body;
    assert s[0] == ',' && s[1..] == body;
  }

  lemma ReadsPartial(body: string, rest: string, a: Term)
    requires ReadTerm(body) == Got(a, "]" + rest)
    ensures ReadTail("|" + body) == Got(a, rest)
  {
    var s := "|" + body;
    assert s[0] == '|' && s[1..] == body && ("]" + rest)[1..] == rest;
  }

  lemma ReadsStruct(s: string, body: string, rest: string, f: string, args: seq<Term>)
    requires ReadName(s) == Got(f, "(" + body) && ReadArgs(body) == Got(args, rest)
    requires s != "" && s[0] != '[' && s[0] != '-' && !Digit(s[0])
    ensures ReadTerm(s) == Got(Struct(f, args), rest)
  {
    assert ("(" + body)[1..] == body;
  }

  lemma ReadsArg(s: string, body: string, rest: string, a: Term, args: seq<Term>)
    requires ReadTerm(s) == Got(a, "," + body) && ReadArgs(body) == Got(args, rest)
    ensures ReadArgs(s) == Got([a] + args, rest)
  {
    assert ("," + body)[1..] == body;
  }

  lemma ReadsLastArg(s: string, rest: string, a: Term)
    requires ReadTerm(s) == Got(a, ")" + rest)
    ensures ReadArgs(s) == Got([a], rest)
  {
    assert (")" + rest)[1..] == rest;
  }

  lemma Split4(a: string, b: string, c: string, d: string, e: string)
    ensures ((a + b) + c) + d + e == a + (b + (c + d + e))
  {
    Regroup3(a, b, c, d);
    Regroup(a, b + (c + d), e);
    Regroup(b, c + d, e);
  }

  lemma {:induction false} RoundTrip(t: Term, rest: string)
    requires Follows(rest)
    ensures ReadTerm(Text(t, false) + rest) == Got(Shown(t), rest)
    decreases t, 1
  {
    match t
    case Atom(name) =>
      NameRead(name, rest);
    case Int(n) =>
      IntRead(ToCInt(n), rest);
    case Nil =>
      NilRead(rest);
    case List(a, b) =>
      var tail := TailText(b) + "]" + rest;
      RoundTripTail(b, rest);
      TailFollows(b, rest);
      RoundTrip(a, tail);
      TextStarts(a);
      Split4("[", Text(a, false), TailText(b), "]", rest);
      ReadsList(Text(a, false) + tail, tail, rest, Shown(a), Shown(b));
    case Struct(f, args) =>
      if args == [] {
        NameRead(f, rest);
        assert Quoted(f, false) + "" == Quoted(f, false);
      } else {
        RoundTripStruct(f, args, rest);
      }
  }

  lemma {:induction false} RoundTripStruct(f: string, args: seq<Term>, rest: string)
    requires args != [] && Follows(rest)
    ensures ReadTerm(Text(Struct(f, args), false) + rest) == Got(Struct(f, ShownAll(args)), rest)
    decreases args, 1
  {
    var body := ArgsText(args) + ")" + rest;
    RoundTripArgs(args, rest);
    NameRead(f, "(" + body);
    Split4(Quoted(f, false), "(", ArgsText(args), ")", rest);
    Wrapped(Quoted(f, false), "(", ArgsText(args), ")");
    ReadsStruct(Quoted(f, false) + ("(" + body), body, rest, f, ShownAll(args));
  }

  lemma NilRead(rest: string)
    ensures ReadTerm("[]" + rest) == Got(Nil, rest)
  {
    var s := "[]" + rest;
    assert s[0] == '[' && s[1] == ']' && s[2..] == rest;
  }

  function ShownAll(ts: seq<Term>): (r: seq<Term>)
    ensures |r| == |ts| && forall i :: 0 <= i < |ts| ==> r[i] == Shown(ts[i])
  {
    seq(|ts|, i requires 0 <= i < |ts| => Shown(ts[i]))
  }

  lemma TailFollows(t: Term, rest: string)
    ensures Follows(TailText(t) + "]" + rest)
  {
  }

  lemma {:induction false} RoundTripTail(t: Term, rest: string)
    requires Follows(rest)
    ensures ReadTail(TailText(t) + "]" + rest) == Got(Shown(t), rest)
    decreases t, 2
  {
    match t
    case Nil =>
      var s := "" + "]" + rest;
      assert s[0] == ']' && s[1..] == rest;
    case List(a, b) =>
      var tail := TailText(b) + "]" + rest;
      RoundTripTail(b, rest);
      TailFollows(b, rest);
      RoundTrip(a, tail);
      Split4(",", Text(a, false), TailText(b), "]", rest);
      ReadsMore(Text(a, false) + tail, tail, rest, Shown(a), Shown(b));
    case _ =>
      RoundTrip(t, "]" + rest);
      Regroup3("|", Text(t, false), "]", rest);
      ReadsPartial(Text(t, false) + ("]" + rest), rest, Shown(t));
  }

  lemma {:induction false} RoundTripArgs(ts: seq<Term>, rest: string)
    requires ts != [] && Follows(rest)
    ensures ReadArgs(ArgsText(ts) + ")" + rest) == Got(ShownAll(ts), rest)
    decreases ts, 0
  {
    var first := Text(ts[0], false);
    if |ts| == 1 {
      RoundTrip(ts[0], ")" + rest);
      assert first + "" == first;
      Regroup(first, ")", rest);
      ReadsLastArg(first + (")" + rest), rest, Shown(ts[0]));
      assert ShownAll(ts) == [Shown(ts[0])];
    } else {
      var body := ArgsText(ts[1..]) + ")" + rest;
      RoundTripArgs(ts[1..], rest);
      RoundTrip(ts[0], "," + body);
      Regroup(first, ",", ArgsText(ts[1..]));
      Split4(first, ",", ArgsText(ts[1..]), ")", rest);
      ReadsArg(first + ("," + body), body, rest, Shown(ts[0]), ShownAll(ts[1..]));
      assert ShownAll(ts) == [Shown(ts[0])] + ShownAll(ts[1..]);
    }
  }

  // ----- what this means -----

  lemma {:induction false} ShownSame(t: Term)
    ensures Shown(t) == t <==> InRange(t) && Positive(t)
  {
    match t
    case List(a, b) =>
      ShownSame(a);
      ShownSame(b);
    case Struct(_, args) =>
      forall i | 0 <= i < |args|
        ensures Shown(args[i]) == args[i] <==> InRange(args[i]) && Positive(args[i])
      {
        ShownSame(args[i]);
      }
      if args != [] {
        var shown := Shown(t).args;
        assert |shown| == |args| && forall i :: 0 <= i < |args| ==> shown[i] == Shown(args[i]);
        if InRange(t) && Positive(t) { assert shown == args; }
      }
    case _ =>
  }

  /** A printed term is read back as itself exactly when its integers fit a C int and every structure has an argument. */
  lemma ReadsBackIff(t: Term)
    ensures ReadTerm(Text(t, false)) == Got(t, "") <==> InRange(t) && Positive(t)
  {
    RoundTrip(t, "");
    ShownSame(t);
    assert Text(t, false) + "" == Text(t, false);
  }

  /** Printing what was read back gives the same text again. */
  lemma {:induction false} PrintsAgain(t: Term)
    ensures Text(Shown(t), false) == Text(t, false)
    decreases t, 1
  {
    match t
    case List(a, b) =>
      PrintsAgain(a);
      PrintsTailAgain(b);
    case Struct(f, args) =>
      if args != [] {
        PrintsArgsAgain(args);
        assert Shown(t).args == ShownAll(args);
      }
    case _ =>
  }

  lemma {:induction false} PrintsTailAgain(t: Term)
    ensures TailText(Shown(t)) == TailText(t)
    decreases t, 2
  {
    match t
    case List(a, b) =>
      PrintsAgain(a);
      PrintsTailAgain(b);
    case _ =>
      PrintsAgain(t);
  }

  lemma {:induction false} PrintsArgsAgain(ts: seq<Term>)
    ensures ArgsText(ShownAll(ts)) == ArgsText(ts)
    decreases ts, 0
  {
    if ts != [] {
      PrintsAgain(ts[0]);
      if |ts| > 1 {
        PrintsArgsAgain(ts[1..]);
        assert ShownAll(ts)[1..] == ShownAll(ts[1..]);
      }
    }
  }

  /** Two terms have the same text exactly when they are read back as the same term. */
  lemma SameTextIff(t: Term, u: Term)
    ensures Text(t, false) == Text(u, false) <==> Shown(t) == Shown(u)
  {
    RoundTrip(t, "");
    RoundTrip(u, "");
    assert Text(t, false) + "" == Text(t, false) && Text(u, false) + "" == Text(u, false);
    PrintsAgain(t);
    PrintsAgain(u);
  }

  /** Quoting only matters inside: at top level an atom is printed as it is. */
  lemma TopLevelDiffers(t: Term)
    ensures Text(t, true) != Text(t, false) <==> t.Atom? && !Plain(t.name)
  {
    if t.Atom? && !Plain(t.name) { DoubledLonger(t.name); }
  }

  lemma {:induction false} DoubledLonger(a: string)
    ensures |Doubled(a)| >= |a|
  {
    if a != "" { DoubledLonger(a[1..]); }
  }
}
