/**
 Collecting the free variables of a goal, as setof/3 and bagof/3 need them: variables
 already dealt with are bound to [] while the term is walked, and a local trail undoes
 the bindings. What X^G, setof/3 and bagof/3 quantify is bound for the extent of the
 quantified goal only.
 */
module ExcessVars {
  import opened Hiding

  datatype Term =
    | Var(v: nat)
    | Nil
    | Const(name: string)
    | List(car: Term, cdr: Term)
    | Struct(name: string, args: seq<Term>)

  // ----- terms -----

  /** Every structure has an argument. */
  ghost predicate Positive(t: Term) {
    match t
    case List(a, b) => Positive(a) && Positive(b)
    case Struct(_, args) => args != [] && forall i :: 0 <= i < |args| ==> Positive(args[i])
    case _ => true
  }

  ghost function Vars(t: Term): set<nat> {
    match t
    case Var(v) => {v}
    case List(a, b) => Vars(a) + Vars(b)
    case Struct(_, args) => VarsOf(args)
    case _ => {}
  }

  ghost function VarsOf(ts: seq<Term>): set<nat> {
    if ts == [] then {} else Vars(ts[0]) + VarsOf(ts[1..])
  }

  predicate IsCaret(t: Term) {
    t.Struct? && t.name == "^" && |t.args| == 2
  }

  predicate IsSetof(t: Term) {
    t.Struct? && (t.name == "setof" || t.name == "bagof") && |t.args| == 3
  }

  // ----- what is to be collected -----

  /** The variable occurrences of t outside `scoped`, in order, quantified ones left out if `ifExist`. */
  ghost function Occurrences(t: Term, ifExist: bool, scoped: set<nat>): seq<nat> {
    match t
    case Var(v) => if v in scoped then [] else [v]
    case List(a, b) => Occurrences(a, ifExist, scoped) + Occurrences(b, ifExist, scoped)
    case Struct(_, args) =>
      if ifExist && IsCaret(t) then Occurrences(args[1], ifExist, scoped + Vars(args[0]))
      else if ifExist && IsSetof(t) then
        Occurrences(args[1], ifExist, scoped + Vars(args[0])) + Occurrences(args[2], ifExist, scoped + Vars(args[0]))
      else OccurrencesOf(args, ifExist, scoped)
    case _ => []
  }

  ghost function OccurrencesOf(ts: seq<Term>, ifExist: bool, scoped: set<nat>): seq<nat> {
    if ts == [] then [] else Occurrences(ts[0], ifExist, scoped) + OccurrencesOf(ts[1..], ifExist, scoped)
  }

  /** The list without the given variables. */
  ghost function Outside(s: seq<nat>, n: set<nat>): seq<nat> {
    if s == [] then [] else (if s[0] in n then [] else [s[0]]) + Outside(s[1..], n)
  }

  /** The first of each of the variables. */
  ghost function Firsts(s: seq<nat>): seq<nat> {
    if s == [] then [] else [s[0]] + Outside(Firsts(s[1..]), {s[0]})
  }

  /** The variables of t that are free and not in `scoped`, in the order they are first met. */
  ghost function Free(t: Term, ifExist: bool, scoped: set<nat>): seq<nat> {
    Firsts(Occurrences(t, ifExist, scoped))
  }

  ghost function Elements(s: seq<nat>): set<nat> {
    set v | v in s
  }

  // ----- about these -----

  lemma OutsideCons(v: nat, s: seq<nat>, n: set<nat>)
    ensures Outside([v] + s, n) == if v in n then Outside(s, n) else [v] + Outside(s, n)
  {
    assert ([v] + s)[1..] == s;
    assert v in n ==> Outside([v] + s, n) == [] + Outside(s, n) == Outside(s, n);
  }

  lemma {:induction false} OutsideConcat(a: seq<nat>, b: seq<nat>, n: set<nat>)
    ensures Outside(a + b, n) == Outside(a, n) + Outside(b, n)
  {
    if a == [] {
      assert a + b == b && Outside(a, n) + Outside(b, n) == Outside(b, n);
    } else {
      var v, rest := a[0], a[1..];
      Grouped(v, rest, b);
      assert a == [v] + rest;
      OutsideConcat(rest, b, n);
      OutsideCons(v, rest, n);
      OutsideCons(v, rest + b, n);
      Grouped(v, Outside(rest, n), Outside(b, n));
    }
  }

  lemma {:induction false} OutsideIn(s: seq<nat>, n: set<nat>)
    ensures forall v :: v in Outside(s, n) <==> v in s && v !in n
  {
    if s != [] { OutsideIn(s[1..], n); }
  }

  lemma {:induction false} OutsideTwice(s: seq<nat>, n: set<nat>, m: set<nat>)
    ensures Outside(Outside(s, n), m) == Outside(s, n + m)
  {
    if s != [] {
      var rest := s[1..];
      assert s == [s[0]] + rest;
      OutsideTwice(rest, n, m);
      OutsideCons(s[0], rest, n);
      OutsideCons(s[0], rest, n + m);
      OutsideCons(s[0], Outside(rest, n), m);
    }
  }

  lemma {:induction false} OutsideNothing(s: seq<nat>, n: set<nat>)
    requires forall v :: v in s ==> v !in n
    ensures Outside(s, n) == s
  {
    if s != [] {
      OutsideNothing(s[1..], n);
      assert s == [s[0]] + s[1..];
    }
  }

  lemma {:induction false} FirstsIn(s: seq<nat>)
    ensures forall v :: v in Firsts(s) <==> v in s
  {
    if s != [] {
      FirstsIn(s[1..]);
      OutsideIn(Firsts(s[1..]), {s[0]});
    }
  }

  lemma {:induction false} FirstsOutside(s: seq<nat>, n: set<nat>)
    ensures Firsts(Outside(s, n)) == Outside(Firsts(s), n)
  {
    if s != [] {
      var a, rest := s[0], s[1..];
      assert s == [a] + rest;
      FirstsOutside(rest, n);
      OutsideCons(a, rest, n);
      OutsideCons(a, Outside(Firsts(rest), {a}), n);
      OutsideTwice(Firsts(rest), {a}, n);
      OutsideTwice(Firsts(rest), n, {a});
      assert {a} + n == n + {a};
      if a in n {
        assert {a} + n == n;
      } else {
        assert ([a] + Outside(rest, n))[1..] == Outside(rest, n);
      }
    }
  }

  /** The second part contributes what the first did not have. */
  lemma {:induction false} FirstsConcat(a: seq<nat>, b: seq<nat>)
    ensures Firsts(a + b) == Firsts(a) + Outside(Firsts(b), Elements(a))
  {
    if a == [] {
      assert a + b == b && Elements(a) == {};
      OutsideNothing(Firsts(b), {});
      assert Firsts(a) + Firsts(b) == Firsts(b);
    } else {
      var v, rest := a[0], a[1..];
      var more := Firsts(b);
      Grouped(v, rest, b);
      assert a == [v] + rest;
      FirstsConcat(rest, b);
      FirstsCons(v, rest);
      FirstsCons(v, rest + b);
      OutsideConcat(Firsts(rest), Outside(more, Elements(rest)), {v});
      OutsideTwice(more, Elements(rest), {v});
      assert Elements(a) == Elements(rest) + {v};
      Grouped(v, Outside(Firsts(rest), {v}), Outside(more, Elements(a)));
    }
  }

  lemma FirstsCons(v: nat, s: seq<nat>)
    ensures Firsts([v] + s) == [v] + Outside(Firsts(s), {v})
  {
    assert ([v] + s)[1..] == s;
  }

  lemma Grouped(v: nat, a: seq<nat>, b: seq<nat>)
    ensures [v] + (a + b) == ([v] + a) + b
  {
  }

  /** Each variable once. */
  lemma {:induction false} FirstsDistinct(s: seq<nat>)
    ensures forall i, j :: 0 <= i < j < |Firsts(s)| ==> Firsts(s)[i] != Firsts(s)[j]
  {
    if s != [] {
      FirstsDistinct(s[1..]);
      OutsideDistinct(Firsts(s[1..]), {s[0]});
      OutsideIn(Firsts(s[1..]), {s[0]});
    }
  }

  lemma {:induction false} OutsideDistinct(s: seq<nat>, n: set<nat>)
    requires forall i, j :: 0 <= i < j < |s| ==> s[i] != s[j]
    ensures forall i, j :: 0 <= i < j < |Outside(s, n)| ==> Outside(s, n)[i] != Outside(s, n)[j]
  {
    if s != [] {
      OutsideDistinct(s[1..], n);
      OutsideIn(s[1..], n);
    }
  }

  /** Putting more variables in scope drops their occurrences. */
  /** What is quantified: the first argument's variables, in the second of ^/2 and in the others of setof/3 and bagof/3. */
  lemma QuantifiersMean(x: Term, goal: Term, list: Term)
    ensures Occurrences(Struct("^", [x, goal]), true, {}) == Outside(Occurrences(goal, true, {}), Vars(x))
    ensures forall name :: name == "setof" || name == "bagof" ==>
      Occurrences(Struct(name, [x, goal, list]), true, {}) == Outside(Occurrences(goal, true, {}) + Occurrences(list, true, {}), Vars(x))
    ensures forall name, args :: name !in {"^", "setof", "bagof"} ==> Occurrences(Struct(name, args), true, {}) == OccurrencesOf(args, true, {})
    ensures forall name, args :: Occurrences(Struct(name, args), false, {}) == OccurrencesOf(args, false, {})
  {
    assert {} + Vars(x) == Vars(x);
    OccurrencesScoped(goal, true, {}, Vars(x));
    OccurrencesScoped(list, true, {}, Vars(x));
    OutsideConcat(Occurrences(goal, true, {}), Occurrences(list, true, {}), Vars(x));
    var caret := Struct("^", [x, goal]);
    assert IsCaret(caret) && caret.args[1] == goal && caret.args[0] == x;
    forall name | name == "setof" || name == "bagof"
      ensures Occurrences(Struct(name, [x, goal, list]), true, {}) == Outside(Occurrences(goal, true, {}) + Occurrences(list, true, {}), Vars(x))
    {
      var t := Struct(name, [x, goal, list]);
      assert IsSetof(t) && t.args[0] == x && t.args[1] == goal && t.args[2] == list;
    }
  }

  lemma {:induction false} OccurrencesScoped(t: Term, ifExist: bool, scoped: set<nat>, n: set<nat>)
    ensures Occurrences(t, ifExist, scoped + n) == Outside(Occurrences(t, ifExist, scoped), n)
    decreases t, 0
  {
    match t
    case Var(v) =>
      assert [v][1..] == [];
    case List(a, b) =>
      OccurrencesScoped(a, ifExist, scoped, n);
      OccurrencesScoped(b, ifExist, scoped, n);
      OutsideConcat(Occurrences(a, ifExist, scoped), Occurrences(b, ifExist, scoped), n);
    case Struct(_, args) =>
      if ifExist && IsCaret(t) {
        OccurrencesScoped(args[1], ifExist, scoped + Vars(args[0]), n);
        assert scoped + n + Vars(args[0]) == scoped + Vars(args[0]) + n;
      } else if ifExist && IsSetof(t) {
        var s := scoped + Vars(args[0]);
        OccurrencesScoped(args[1], ifExist, s, n);
        OccurrencesScoped(args[2], ifExist, s, n);
        OutsideConcat(Occurrences(args[1], ifExist, s), Occurrences(args[2], ifExist, s), n);
        assert scoped + n + Vars(args[0]) == s + n;
      } else {
        OccurrencesOfScoped(args, ifExist, scoped, n);
      }
    case _ =>
  }

  lemma {:induction false} OccurrencesOfScoped(ts: seq<Term>, ifExist: bool, scoped: set<nat>, n: set<nat>)
    ensures OccurrencesOf(ts, ifExist, scoped + n) == Outside(OccurrencesOf(ts, ifExist, scoped), n)
    decreases ts, 1
  {
    if ts != [] {
      OccurrencesScoped(ts[0], ifExist, scoped, n);
      OccurrencesOfScoped(ts[1..], ifExist, scoped, n);
      OutsideConcat(Occurrences(ts[0], ifExist, scoped), OccurrencesOf(ts[1..], ifExist, scoped), n);
    }
  }

  /** Walking two pieces in turn, the first one's variables bound meanwhile, finds what both have. */
  lemma FreeInTurn(a: seq<nat>, b: seq<nat>)
    ensures Firsts(a + b) == Firsts(a) + Firsts(Outside(b, Elements(Firsts(a))))
  {
    FirstsConcat(a, b);
    FirstsIn(a);
    assert Elements(Firsts(a)) == Elements(a);
    FirstsOutside(b, Elements(a));
  }

  lemma {:induction false} FreeNext(a: seq<nat>, t: Term, b: seq<nat>, ifExist: bool, scoped: set<nat>)
    requires a == Occurrences(t, ifExist, scoped)
    ensures Firsts(a + b) == Free(t, ifExist, scoped) + Firsts(Outside(b, Elements(Free(t, ifExist, scoped))))
  {
    FreeInTurn(a, b);
  }

  ghost function FreeOf(ts: seq<Term>, ifExist: bool, scoped: set<nat>): seq<nat> {
    Firsts(OccurrencesOf(ts, ifExist, scoped))
  }

  lemma FreeInList(a: Term, b: Term, ifExist: bool, scoped: set<nat>)
    ensures Free(List(a, b), ifExist, scoped)
            == Free(a, ifExist, scoped) + Free(b, ifExist, scoped + Elements(Free(a, ifExist, scoped)))
  {
    FreeNext(Occurrences(a, ifExist, scoped), a, Occurrences(b, ifExist, scoped), ifExist, scoped);
    OccurrencesScoped(b, ifExist, scoped, Elements(Free(a, ifExist, scoped)));
  }

  lemma FreeInArgs(ts: seq<Term>, ifExist: bool, scoped: set<nat>)
    requires ts != []
    ensures FreeOf(ts, ifExist, scoped)
            == Free(ts[0], ifExist, scoped) + FreeOf(ts[1..], ifExist, scoped + Elements(Free(ts[0], ifExist, scoped)))
  {
    FreeNext(Occurrences(ts[0], ifExist, scoped), ts[0], OccurrencesOf(ts[1..], ifExist, scoped), ifExist, scoped);
    OccurrencesOfScoped(ts[1..], ifExist, scoped, Elements(Free(ts[0], ifExist, scoped)));
  }

  lemma FreeInOne(t: Term, ifExist: bool, scoped: set<nat>)
    ensures FreeOf([t], ifExist, scoped) == Free(t, ifExist, scoped)
  {
    assert [t][1..] == [];
    assert Occurrences(t, ifExist, scoped) + OccurrencesOf([], ifExist, scoped) == Occurrences(t, ifExist, scoped);
  }

  lemma FreeVariable(v: nat, ifExist: bool, scoped: set<nat>)
    ensures Free(Var(v), ifExist, scoped) == if v in scoped then [] else [v]
  {
    var none: seq<nat> := [];
    assert [v][1..] == none && Firsts(none) == [] && Outside(none, {v}) == [];
  }

  lemma Joined(was: seq<nat>, n: seq<nat>, more: seq<nat>)
    ensures (was + n) + more == was + (n + more) && Elements(n + more) == Elements(n) + Elements(more)
  {
  }

  lemma FreeInSetof(t: Term, scoped: set<nat>)
    requires IsSetof(t)
    ensures var s := scoped + Vars(t.args[0]); var n := Free(t.args[1], true, s);
      Free(t, true, scoped) == n + Free(t.args[2], true, s + Elements(n))
  {
    var s := scoped + Vars(t.args[0]);
    FreeNext(Occurrences(t.args[1], true, s), t.args[1], Occurrences(t.args[2], true, s), true, s);
    OccurrencesScoped(t.args[2], true, s, Elements(Free(t.args[1], true, s)));
  }

  ghost predicate NoRepeats(s: seq<nat>) {
    forall i, j :: 0 <= i < j < |s| ==> s[i] != s[j]
  }

  // ----- the walk -----

  datatype State = State(answers: seq<nat>, marked: set<nat>, varTrail: seq<nat>, templTrail: seq<nat>)

  /** Every binding is on exactly one of the trails, once. */
  ghost predicate Sound(s: State) {
    && s.marked == Elements(s.varTrail) + Elements(s.templTrail)
    && NoRepeats(s.varTrail) && NoRepeats(s.templTrail) && Elements(s.varTrail) !! Elements(s.templTrail)
  }

  /** From s to s' the variables n have been collected and bound, and nothing else has changed. */
  ghost predicate Gained(s: State, s': State, n: seq<nat>) {
    forall k {:trigger Open(k)} :: Open(k) ==>
      && Sound(s') && s'.answers == s.answers + n && s'.marked == s.marked + Elements(n)
      && s'.varTrail == s.varTrail + n && s'.templTrail == s.templTrail
  }

  lemma GainedNone(s: State)
    requires Sound(s)
    ensures Gained(s, s, [])
  {
    assert s.answers + [] == s.answers && s.varTrail + [] == s.varTrail && s.marked + Elements([]) == s.marked;
  }

  lemma GainedMore(s: State, s': State, s'': State, n: seq<nat>, more: seq<nat>)
    requires Gained(s, s', n) && Gained(s', s'', more)
    ensures Gained(s, s'', n + more) && s''.marked == s'.marked + Elements(more)
  {
    assert Open(0);
    Joined(s.answers, n, more);
    Joined(s.varTrail, n, more);
  }

  lemma GainedMarks(s: State, s': State, n: seq<nat>)
    requires Gained(s, s', n)
    ensures Sound(s') && s'.marked == s.marked + Elements(n)
  {
    assert Open(0);
  }

  /** With what was bound for the extent of a term unbound again. */
  lemma GainedScoped(s: State, scoped: State, s': State, s'': State, n: seq<nat>)
    requires Sound(s) && Gained(scoped, s', n) && Sound(s'')
    requires scoped.answers == s.answers && scoped.varTrail == s.varTrail
    requires s''.answers == s'.answers && s''.varTrail == s'.varTrail && s''.templTrail == s.templTrail
    ensures Gained(s, s'', n)
  {
    assert Open(0);
    ElementsJoined(s.varTrail, n);
  }

  class Collector {
    /** The variables now bound to []. */
    var marked: set<nat>
    var varTrail: seq<nat>
    var templTrail: seq<nat>
    /** The answer list so far. */
    var answers: seq<nat>

    ghost function Now(): State
      reads this
    {
      State(answers, marked, varTrail, templTrail)
    }

    ghost predicate Valid()
      reads this
    {
      Sound(Now())
    }

    constructor ()
      ensures Valid() && marked == {} && varTrail == [] && templTrail == [] && answers == []
    {
      marked, varTrail, templTrail, answers := {}, [], [], [];
    }

    /** What a term is after dereferencing. */
    function Deref(t: Term): Term
      reads this
    {
      if t.Var? && t.v in marked then Nil else t
    }

    method BindVar(v: nat, templ: bool)
      requires Valid() && v !in marked
      modifies this`marked, this`varTrail, this`templTrail
      ensures Valid() && marked == old(marked) + {v}
      ensures varTrail == (if templ then old(varTrail) else old(varTrail) + [v])
      ensures templTrail == (if templ then old(templTrail) + [v] else old(templTrail))
    {
      marked := marked + {v};
      if templ { templTrail := templTrail + [v]; } else { varTrail := varTrail + [v]; }
    }

    /** Undoes the bindings above `base` on the template trail. */
    method UndoTemplate(base: nat)
      requires Valid() && base <= |templTrail|
      modifies this`marked, this`templTrail
      ensures Valid() && templTrail == old(templTrail)[..base]
    {
      while |templTrail| != base
        invariant Valid() && base <= |templTrail| && templTrail == old(templTrail)[..|templTrail|]
        decreases |templTrail|
      {
        ghost var init := templTrail[..|templTrail| - 1];
        assert templTrail == init + [templTrail[|templTrail| - 1]];
        marked := marked - {templTrail[|templTrail| - 1]};
        templTrail := templTrail[..|templTrail| - 1];
      }
    }

    /** Undoes all bindings on the other trail. */
    method UndoVars()
      requires Valid()
      modifies this`marked, this`varTrail
      ensures Valid() && varTrail == []
    {
      while |varTrail| != 0
        invariant Valid()
        decreases |varTrail|
      {
        ghost var init := varTrail[..|varTrail| - 1];
        assert varTrail == init + [varTrail[|varTrail| - 1]];
        marked := marked - {varTrail[|varTrail| - 1]};
        varTrail := varTrail[..|varTrail| - 1];
      }
    }

    /** Binds what is free in a term. */
    method MakeGround(t0: Term, templ: bool)
      requires Valid() && Positive(t0)
      modifies this`marked, this`varTrail, this`templTrail
      ensures Valid() && marked == old(marked) + Vars(t0)
      ensures templ ==> varTrail == old(varTrail) && old(templTrail) <= templTrail
      ensures !templ ==> templTrail == old(templTrail) && old(varTrail) <= varTrail
      decreases t0
    {
      var t := t0;
      while true
        invariant Valid() && Positive(t) && marked + Vars(t) == old(marked) + Vars(t0)
        invariant templ ==> varTrail == old(varTrail) && old(templTrail) <= templTrail
        invariant !templ ==> templTrail == old(templTrail) && old(varTrail) <= varTrail
        invariant t == t0 || t < t0
        decreases t
      {
        match Deref(t)
        case Var(v) =>
          BindVar(v, templ);
          return;
        case List(a, b) =>
          MakeGround(a, templ);
          t := b;
        case Struct(_, args) =>
          var i := 0;
          while i < |args| - 1
            invariant 0 <= i <= |args| - 1 && Valid() && marked + VarsOf(args[i..]) == old(marked) + Vars(t0)
            invariant templ ==> varTrail == old(varTrail) && old(templTrail) <= templTrail
            invariant !templ ==> templTrail == old(templTrail) && old(varTrail) <= varTrail
          {
            MakeGround(args[i], templ);
            i := i + 1;
          }
          t := args[|args| - 1];
        case _ =>
          return;
      }
    }

    /** Reads the list of variables that lead the answers. */
    method ReadStart(start: Term) returns (ok: bool)
      requires Valid() && marked == {} && varTrail == [] && templTrail == [] && answers == []
      modifies this
      ensures Valid() && templTrail == [] && answers == varTrail
      ensures (ok <==> StartEnds(start, {})) && varTrail == StartPrefix(start, {})
    {
      var t := start;
      while Deref(t) != Nil
        invariant Valid() && templTrail == [] && answers == varTrail
        invariant StartEnds(t, marked) <==> StartEnds(start, {})
        invariant varTrail + StartPrefix(t, marked) == StartPrefix(start, {})
        decreases t
      {
        if !t.List? || !Deref(t.car).Var? {
          StartStops(t, marked);
          assert varTrail + [] == varTrail;
          return false;
        }
        var v := t.car.v;
        Joined(varTrail, [v], StartPrefix(t.cdr, marked + {v}));
        answers := answers + [v];
        BindVar(v, false);
        t := t.cdr;
      }
      StartDone(t, marked);
      assert varTrail + [] == varTrail;
      ok := true;
    }

    lemma StartStops(t: Term, m: set<nat>)
      requires Deref(t) != Nil && (!t.List? || !Deref(t.car).Var?) && m == marked
      ensures !StartEnds(t, m) && StartPrefix(t, m) == []
    {
    }

    lemma StartDone(t: Term, m: set<nat>)
      requires Deref(t) == Nil && m == marked
      ensures StartEnds(t, m) && StartPrefix(t, m) == []
    {
    }

    method CollectVar(v: nat)
      requires Valid() && v !in marked
      modifies this
      ensures Gained(old(Now()), Now(), [v])
    {
      answers := answers + [v];
      BindVar(v, false);
    }

    /** Adds the variables of a term that are still free to the answers, and binds them. */
    method Collect(t0: Term, ifExist: bool)
      requires Valid() && Positive(t0)
      modifies this
      ensures Gained(old(Now()), Now(), Free(t0, ifExist, old(marked)))
      decreases t0
    {
      var t := t0;
      ghost var s, n := Now(), [];
      GainedNone(s);
      assert n + Free(t0, ifExist, marked) == Free(t0, ifExist, marked);
      while true
        invariant Positive(t) && Gained(s, Now(), n) && n + Free(t, ifExist, marked) == Free(t0, ifExist, s.marked)
        invariant t == t0 || t < t0
        decreases t
      {
        ghost var mid := Now();
        GainedMarks(s, mid, n);
        match Deref(t)
        case Var(v) =>
          FreeVariable(v, ifExist, marked);
          CollectVar(v);
          GainedMore(s, mid, Now(), n, [v]);
          return;
        case List(a, b) =>
          FreeInList(a, b, ifExist, marked);
          ghost var more := Free(a, ifExist, marked);
          Collect(a, ifExist);
          GainedMore(s, mid, Now(), n, more);
          Joined(n, more, Free(b, ifExist, marked));
          n := n + more;
          t := b;
        case Struct(_, args) =>
          if ifExist && (IsCaret(t) || IsSetof(t)) {
            CollectScoped(t);
            GainedMore(s, mid, Now(), n, Free(t, ifExist, mid.marked));
            return;
          }
          ghost var more := CollectArgs(args, ifExist);
          GainedMore(s, mid, Now(), n, more);
          Joined(n, more, Free(args[|args| - 1], ifExist, marked));
          n := n + more;
          t := args[|args| - 1];
        case _ =>
          NothingFree(t, ifExist, marked);
          assert n + [] == n;
          return;
      }
    }

    lemma NothingFree(t: Term, ifExist: bool, m: set<nat>)
      requires m == marked && !Deref(t).Var? && !Deref(t).List? && !Deref(t).Struct?
      ensures Free(t, ifExist, m) == []
    {
    }

    /** X^G, setof(X, G, S), bagof(X, G, S): the variables of X are bound while the others are walked. */
    method CollectScoped(t: Term)
      requires Valid() && (IsCaret(t) || IsSetof(t)) && Positive(t)
      modifies this
      ensures Gained(old(Now()), Now(), Free(t, true, old(marked)))
      decreases t, 0
    {
      var base := |templTrail|;
      ghost var s := Now();
      if IsSetof(t) { FreeInSetof(t, marked); }
      MakeGround(t.args[0], true);
      ghost var scoped := Now();
      ghost var n := Free(t.args[1], true, marked);
      Collect(t.args[1], true);
      GainedMarks(scoped, Now(), n);
      if IsSetof(t) {
        ghost var mid, more := Now(), Free(t.args[2], true, marked);
        Collect(t.args[2], true);
        GainedMore(scoped, mid, Now(), n, more);
        n := n + more;
      }
      ghost var s' := Now();
      GainedMarks(scoped, s', n);
      assert n == Free(t, true, s.marked);
      ScopedTrail(scoped, s', n);
      UndoTemplate(base);
      GainedScoped(s, scoped, s', Now(), n);
    }

    /** All arguments but the last. */
    method CollectArgs(args: seq<Term>, ifExist: bool) returns (ghost n: seq<nat>)
      requires Valid() && args != [] && forall i :: 0 <= i < |args| ==> Positive(args[i])
      modifies this
      ensures Gained(old(Now()), Now(), n)
      ensures n + Free(args[|args| - 1], ifExist, marked) == FreeOf(args, ifExist, old(marked))
      decreases args, 0
    {
      ghost var s := Now();
      n := [];
      var i := 0;
      GainedNone(s);
      assert args[0..] == args && n + FreeOf(args, ifExist, marked) == FreeOf(args, ifExist, marked);
      while i < |args| - 1
        invariant 0 <= i <= |args| - 1 && Gained(s, Now(), n)
        invariant n + FreeOf(args[i..], ifExist, marked) == FreeOf(args, ifExist, s.marked)
      {
        ghost var mid := Now();
        ghost var more := Free(args[i], ifExist, marked);
        GainedMarks(s, mid, n);
        FreeInArgs(args[i..], ifExist, marked);
        assert args[i..][1..] == args[i + 1..];
        Collect(args[i], ifExist);
        GainedMore(s, mid, Now(), n, more);
        Joined(n, more, FreeOf(args[i + 1..], ifExist, marked));
        n := n + more;
        i := i + 1;
      }
      assert args[i..] == [args[i]];
      FreeInOne(args[i], ifExist, marked);
    }
  }

  lemma ScopedTrail(s: State, s': State, n: seq<nat>)
    requires Gained(s, s', n)
    ensures s'.templTrail == s.templTrail
  {
    assert Open(0);
  }

  lemma ElementsJoined(a: seq<nat>, b: seq<nat>)
    ensures Elements(a + b) == Elements(a) + Elements(b)
  {
  }

  // ----- the builtin -----

  datatype Result = Ok(vars: seq<nat>) | TypeError

  /** The variables read from a start list before it ends or turns out to be no list of new variables. */
  ghost function StartPrefix(t: Term, seen: set<nat>): seq<nat> {
    match t
    case List(Var(v), b) => if v in seen then [] else [v] + StartPrefix(b, seen + {v})
    case _ => []
  }

  /** The list ends after that: with [], or with a variable that has been read. */
  ghost predicate StartEnds(t: Term, seen: set<nat>) {
    match t
    case List(Var(v), b) => v !in seen && StartEnds(b, seen + {v})
    case Var(v) => v in seen
    case Nil => true
    case _ => false
  }

  function ListOf(vs: seq<nat>): Term {
    if vs == [] then Nil else List(Var(vs[0]), ListOf(vs[1..]))
  }

  lemma {:induction false} DistinctStart(vs: seq<nat>, seen: set<nat>)
    requires NoRepeats(vs) && forall v :: v in vs ==> v !in seen
    ensures StartEnds(ListOf(vs), seen) && StartPrefix(ListOf(vs), seen) == vs
  {
    if vs != [] {
      assert vs[1..] == vs[1..] && forall v :: v in vs[1..] ==> v != vs[0] && v !in seen;
      DistinctStart(vs[1..], seen + {vs[0]});
      assert vs == [vs[0]] + vs[1..];
    }
  }

  /**
   excess_vars/5 on a goal, a template and a start list; `left` is what stays bound.
   An error leaves the variables it has read bound: nothing undoes them.
   */
  method ExcessVarsOf(term: Term, templ: Term, start: Term, ifExist: bool) returns (r: Result, left: set<nat>)
    requires Positive(term) && Positive(templ)
    ensures r.Ok? <==> StartEnds(start, {})
    ensures r.Ok? ==> left == {} && r.vars == StartPrefix(start, {}) + Free(term, ifExist, Elements(StartPrefix(start, {})) + Vars(templ))
    ensures r.TypeError? ==> left == Elements(StartPrefix(start, {}))
  {
    var c := new Collector();
    var ok := c.ReadStart(start);
    if !ok { return TypeError, c.marked; }
    assert c.marked == Elements(StartPrefix(start, {}));
    c.MakeGround(templ, false);
    assert c.marked == Elements(StartPrefix(start, {})) + Vars(templ);
    ghost var before := c.Now();
    c.Collect(term, ifExist);
    assert Open(0);
    c.UndoTemplate(0);
    c.UndoVars();
    r, left := Ok(c.answers), c.marked;
  }

  /** What the answer means: no variable twice, and apart from the start list just those free in the goal and not in the template. */
  lemma ExcessMeans(term: Term, templ: Term, start: seq<nat>, ifExist: bool)
    requires NoRepeats(start)
    ensures var vars := start + Free(term, ifExist, Elements(start) + Vars(templ));
      && NoRepeats(vars)
      && (forall v :: v in vars <==> v in start || (v in Occurrences(term, ifExist, {}) && v !in Vars(templ)))
      && vars == start + Outside(Firsts(Occurrences(term, ifExist, {})), Elements(start) + Vars(templ))
  {
    var n := Elements(start) + Vars(templ);
    var occ := Occurrences(term, ifExist, {});
    OccurrencesScoped(term, ifExist, {}, n);
    assert {} + n == n;
    FirstsOutside(occ, n);
    FirstsIn(occ);
    OutsideIn(Firsts(occ), n);
    FirstsDistinct(Occurrences(term, ifExist, n));
    Apart(start, Free(term, ifExist, n));
  }

  lemma Apart(a: seq<nat>, b: seq<nat>)
    requires NoRepeats(a) && NoRepeats(b) && forall v :: v in b ==> v !in a
    ensures NoRepeats(a + b)
  {
    forall i, j | 0 <= i < j < |a + b|
      ensures (a + b)[i] != (a + b)[j]
    {
      if i < |a| <= j { assert b[j - |a|] in b; }
    }
  }
}
