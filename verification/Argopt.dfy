/** Command line parsing that moves what is not an option to the end of argv. */
module Argopt {

  const OPTION_FOUND := -1
  const AMBIGUOUS_OPTION := -2
  const UNKNOWN_OPTION := -3
  const MISSING_PARAM := -4
  const NOT_OPTION := -5
  const DONE := -6

  datatype Param = NoParam | NeedParam | OptionalParam

  /** `flagged`: the value goes into the caller's variable and OPTION_FOUND is returned instead. */
  datatype OptionSpec = OptionSpec(name: string, param: Param, flagged: bool, val: int)

  datatype Parameter = None | Some(text: string)

  predicate IsOption(s: string) {
    2 <= |s| && s[0] == '-'
  }

  /** A parameter does not begin with '-', unless that is escaped. */
  function AsParam(s: string): (p: Parameter) {
    if s != [] && s[0] == '-' then None
    else if 2 <= |s| && s[0] == '\\' && s[1] == '-' then Some(s[1..])
    else Some(s)
  }

  /** The argument that passes the text on: a leading dash is escaped. */
  function Escaped(text: string): (s: string) {
    if text != [] && text[0] == '-' then "\\" + text else text
  }

  /**
   Every text can be passed as a parameter, and comes back as it is, but for those that begin with a
   backslash and a dash, which no argument stands for. Arguments that begin with a dash are none.
   */
  lemma ParamIsText(text: string, s: string)
    ensures !("\\-" <= text) ==> AsParam(Escaped(text)) == Some(text)
    ensures "\\-" <= text ==> AsParam(s) != Some(text)
    ensures AsParam(s) == None <==> "-" <= s
    ensures AsParam(s) == None <==> IsOption(s) || s == "-"
    ensures AsParam(s).Some? ==> AsParam(s).text == s || (s == "\\" + AsParam(s).text && "-" <= AsParam(s).text)
  {
    if text != [] && text[0] == '-' {
      assert Escaped(text)[1..] == text;
    }
  }

  // ---------------------------------------------------------------- looking up an option

  /** Length of the common prefix: match_meassure. */
  method MatchMeasure(s: string, t: string) returns (n: nat)
    ensures n <= |s| && n <= |t| && s[..n] == t[..n]
    ensures n < |s| && n < |t| ==> s[n] != t[n]
  {
    n := 0;
    while n < |s| && n < |t| && s[n] == t[n]
      invariant n <= |s| && n <= |t| && s[..n] == t[..n]
    {
      n := n + 1;
    }
  }

  /** Option i can be abbreviated to opt. */
  predicate Completes(options: seq<OptionSpec>, opt: string, i: nat)
    requires i < |options|
  {
    opt <= options[i].name
  }

  /** What an option's text (without its dash) stands for. */
  ghost predicate Resolves(options: seq<OptionSpec>, opt: string, r: int) {
    if exists i: nat :: i < |options| && options[i].name == opt then
      // the first exact match
      0 <= r < |options| && options[r].name == opt && forall i: nat :: i < r ==> options[i].name != opt
    else if r == UNKNOWN_OPTION then
      forall i: nat :: i < |options| ==> !Completes(options, opt, i)
    else if r == AMBIGUOUS_OPTION then
      exists i: nat, j: nat :: i < j < |options| && Completes(options, opt, i) && Completes(options, opt, j)
    else
      // the only completion
      && 0 <= r < |options| && Completes(options, opt, r)
      && forall i: nat :: i < |options| && Completes(options, opt, i) ==> i == r
  }

  method FindOption(text: string, options: seq<OptionSpec>) returns (r: int)
    requires IsOption(text)
    ensures Resolves(options, text[1..], r)
    ensures r < |options| && (r < 0 ==> r == UNKNOWN_OPTION || r == AMBIGUOUS_OPTION)
  {
    var opt := text[1..];
    var best, bestIdx, ambiguous, found := 0, 0, true, false;
    var i := 0;
    ghost var second := 0;
    while i < |options|
      invariant i <= |options|
      invariant forall k: nat :: k < i ==> options[k].name != opt
      invariant !found ==> best == 0 && forall k: nat :: k < i ==> !Completes(options, opt, k)
      invariant found ==> best == |opt| && bestIdx < i && Completes(options, opt, bestIdx)
      invariant found && !ambiguous ==> forall k: nat :: k < i && Completes(options, opt, k) ==> k == bestIdx
      invariant found && ambiguous ==> bestIdx < second < i && Completes(options, opt, second)
    {
      if opt == options[i].name {
        return i;
      }
      var match_ := MatchMeasure(options[i].name, opt);
      assert opt[..|opt|] == opt;
      if match_ != 0 && match_ == |opt| {
        found := true;
        if match_ == best {
          ambiguous, second := true, i;
        } else if match_ > best {
          bestIdx, best, ambiguous := i, match_, false;
        }
      }
      i := i + 1;
    }
    r := if !found then UNKNOWN_OPTION else if ambiguous then AMBIGUOUS_OPTION else bestIdx;
  }

  /** The lookup is a function of the table and the text. */
  lemma ResolvesUniquely(options: seq<OptionSpec>, opt: string, r: int, r': int)
    requires Resolves(options, opt, r) && Resolves(options, opt, r')
    ensures r == r'
  {
    if exists i: nat :: i < |options| && options[i].name == opt {
      assert !(r < r') && !(r' < r);
    }
  }

  // ---------------------------------------------------------------- one call

  /** What a call does with the arguments not looked at yet. */
  datatype Verdict = Verdict(code: int, keep: bool, count: nat, parameter: Parameter)

  /** `count` arguments from the front of todo are kept, or pushed to the end. */
  ghost predicate Decides(options: seq<OptionSpec>, todo: seq<string>, v: Verdict) {
    if todo == [] then v == Verdict(DONE, true, 0, None)
    else if !IsOption(todo[0]) then v == Verdict(NOT_OPTION, false, 1, None)
    else exists r: int :: r < |options| && Resolves(options, todo[0][1..], r) && DecidesFor(options, todo, r, v)
  }

  predicate DecidesFor(options: seq<OptionSpec>, todo: seq<string>, r: int, v: Verdict)
    requires todo != [] && r < |options|
  {
    if r < 0 then
      v == Verdict(r, false, if 1 < |todo| && !IsOption(todo[1]) then 2 else 1, None)
    else
      v == Found(options[r], todo)
  }

  /** A known option is kept together with its parameter. */
  function Found(spec: OptionSpec, todo: seq<string>): (v: Verdict)
    requires todo != []
  {
    var param := if spec.param == NoParam || |todo| == 1 then None else AsParam(todo[1]);
    if spec.param == NeedParam && param == None then Verdict(MISSING_PARAM, true, 1, None)
    else Verdict(if spec.flagged then OPTION_FOUND else spec.val, true, if param == None then 1 else 2, param)
  }

  /** As long as the caller's own values are not negative, the code tells what was found. */
  lemma CodeTells(options: seq<OptionSpec>, todo: seq<string>, v: Verdict)
    requires Decides(options, todo, v) && forall i: nat :: i < |options| ==> 0 <= options[i].val
    ensures v.code == -6 <==> todo == []
    ensures v.code == -5 <==> todo != [] && !IsOption(todo[0])
    ensures v.code == -4 || -1 <= v.code <==>
            todo != [] && IsOption(todo[0]) && exists i: nat :: i < |options| && Resolves(options, todo[0][1..], i)
    ensures v.code == -3 <==> todo != [] && IsOption(todo[0]) && Resolves(options, todo[0][1..], -3)
    ensures v.code == -2 <==> todo != [] && IsOption(todo[0]) && Resolves(options, todo[0][1..], -2)
    ensures v.code == -4 ==> v.parameter == None && (|todo| == 1 || "-" <= todo[1])
  {
    if todo != [] && IsOption(todo[0]) {
      var opt := todo[0][1..];
      var r: int :| r < |options| && Resolves(options, opt, r) && DecidesFor(options, todo, r, v);
      forall r' | Resolves(options, opt, r') ensures r' == r {
        ResolvesUniquely(options, opt, r, r');
      }
      assert r < 0 ==> r == UNKNOWN_OPTION || r == AMBIGUOUS_OPTION;
    }
  }

  /** Arguments are left between the i kept ones behind argv[0] and the p pushed ones. */
  predicate Active(args: seq<string>, i: nat, p: nat) {
    i + p < |args|
  }

  function Kept(args: seq<string>, i: nat, p: nat): (s: seq<string>)
    requires Active(args, i, p)
  {
    args[1..i + 1]
  }

  function Todo(args: seq<string>, i: nat, p: nat): (s: seq<string>)
    requires Active(args, i, p)
  {
    args[i + 1..|args| - p]
  }

  function Pushed(args: seq<string>, i: nat, p: nat): (s: seq<string>)
    requires Active(args, i, p)
  {
    args[|args| - p..]
  }

  /** A call moved what it decided on, in order, and nothing else. */
  ghost predicate Moved(args: seq<string>, i: nat, p: nat, args': seq<string>, i': nat, p': nat, v: Verdict)
    requires Active(args, i, p)
  {
    && Active(args', i', p') && |args'| == |args| && args'[0] == args[0]
    && v.count <= |Todo(args, i, p)|
    && var (taken, left) := (Todo(args, i, p)[..v.count], Todo(args, i, p)[v.count..]);
       && Todo(args', i', p') == left
       && Kept(args', i', p') == Kept(args, i, p) + (if v.keep then taken else [])
       && Pushed(args', i', p') == Pushed(args, i, p) + (if v.keep then [] else taken)
  }

  /** args with the argument at idx rotated to the end. */
  function Rotated(args: seq<string>, idx: nat): (r: seq<string>)
    requires idx < |args|
    ensures |r| == |args|
  {
    args[..idx] + args[idx + 1..] + [args[idx]]
  }

  method PushToEnd(argv: array<string>, idx: nat)
    requires idx < argv.Length
    modifies argv
    ensures argv[..] == Rotated(old(argv[..]), idx)
  {
    var tmp := argv[idx];
    var i := idx;
    while i < argv.Length - 1
      invariant idx <= i <= argv.Length - 1
      invariant argv[..idx] == old(argv[..idx])
      invariant argv[idx..i] == old(argv[idx + 1..i + 1])
      invariant argv[i..] == old(argv[i..])
    {
      argv[i] := argv[i + 1];
      i := i + 1;
    }
    argv[argv.Length - 1] := tmp;
    assert argv[..] == argv[..idx] + argv[idx..i] + [tmp];
  }

  /** Rotating the next argument away pushes it; the pushed ones before it move up and stay in order. */
  lemma RotatedIsPushed(args: seq<string>, i: nat, p: nat, v: Verdict)
    requires Active(args, i, p) && Todo(args, i, p) != [] && v.count == 1 && !v.keep
    ensures Moved(args, i, p, Rotated(args, i + 1), i, p + 1, v)
  {
  }

  /** Stepping over the next arguments keeps them. */
  lemma SteppedIsKept(args: seq<string>, i: nat, p: nat, v: Verdict)
    requires Active(args, i, p) && v.count <= |Todo(args, i, p)| && v.keep
    ensures Moved(args, i, p, args, i + v.count, p, v)
  {
  }

  lemma NextAfterRotation(args: seq<string>, idx: nat)
    requires idx + 1 < |args|
    ensures Rotated(args, idx)[idx] == args[idx + 1]
  {
  }

  lemma MovedTwice(args: seq<string>, i: nat, p: nat, args1: seq<string>, i1: nat, p1: nat,
                   args2: seq<string>, i2: nat, p2: nat, v: Verdict)
    requires Active(args, i, p) && v.count == 2
    requires Moved(args, i, p, args1, i1, p1, v.(count := 1))
    requires Moved(args1, i1, p1, args2, i2, p2, v.(count := 1))
    ensures Moved(args, i, p, args2, i2, p2, v)
  {
    var todo := Todo(args, i, p);
    assert todo[..1] + todo[1..][..1] == todo[..2];
    assert todo[1..][1..] == todo[2..];
  }

  /** Two rotations at the same place push two arguments, in order. */
  lemma TwoRotatedArePushed(args: seq<string>, i: nat, p: nat, v: Verdict)
    requires Active(args, i, p) && 2 <= |Todo(args, i, p)| && v.count == 2 && !v.keep
    ensures Moved(args, i, p, Rotated(Rotated(args, i + 1), i + 1), i, p + 2, v)
  {
    hide Moved, Rotated;
    var args1 := Rotated(args, i + 1);
    var args2 := Rotated(args1, i + 1);
    var one := v.(count := 1);
    RotatedIsPushed(args, i, p, one);
    OneLeft(args, i, p, args1, one);
    RotatedIsPushed(args1, i, p + 1, one);
    MovedTwice(args, i, p, args1, i, p + 1, args2, i, p + 2, v);
  }

  lemma OneLeft(args: seq<string>, i: nat, p: nat, args1: seq<string>, one: Verdict)
    requires Active(args, i, p) && 2 <= |Todo(args, i, p)| && one.count == 1
    requires Moved(args, i, p, args1, i, p + 1, one)
    ensures Active(args1, i, p + 1) && Todo(args1, i, p + 1) != []
  {
  }

  /** The function and its static variables. */
  class Parser {
    var argvIdx: nat
    var pushCount: nat

    constructor ()
      ensures argvIdx == 0 && pushCount == 0
    {
      argvIdx, pushCount := 0, 0;
    }

    /** One call of argopt; -1 in `index` starts a new run. */
    method Call(argv: array<string>, options: seq<OptionSpec>, index: int)
      returns (code: int, index': int, parameter: Parameter, ghost v: Verdict)
      requires index == -1 || pushCount <= argv.Length
      modifies this, argv
      ensures pushCount <= argv.Length
      ensures var (i, p) := if index == -1 then (0, 0) else (old(argvIdx), old(pushCount));
              if Active(old(argv[..]), i, p) && Todo(old(argv[..]), i, p) != [] then
                && Decides(options, Todo(old(argv[..]), i, p), v)
                && code == v.code && parameter == v.parameter
                && Moved(old(argv[..]), i, p, argv[..], argvIdx, pushCount, v) && 1 <= v.count
                && index' == (if v.keep then argvIdx else argv.Length - v.count)
              else
                && code == DONE && parameter == None && index' == argv.Length - p
                && argv[..] == old(argv[..]) && pushCount == p && argvIdx == i + 1
    {
      hide Moved, Decides;
      if index == -1 {
        argvIdx, pushCount := 0, 0;
      }
      argvIdx := argvIdx + 1;
      parameter := None;
      v := Verdict(DONE, true, 0, None);
      if argvIdx < argv.Length {
        if argv.Length <= pushCount + argvIdx {
          return DONE, argv.Length - pushCount, None, v;
        }
        code, index', parameter, v := Handle(argv, options);
        return;
      }
      return DONE, argv.Length - pushCount, None, v;
    }

    /** The call with an argument left at argvIdx. */
    method Handle(argv: array<string>, options: seq<OptionSpec>)
      returns (code: int, index: int, parameter: Parameter, ghost v: Verdict)
      requires 1 <= argvIdx && argvIdx + pushCount < argv.Length
      modifies this, argv
      ensures pushCount <= argv.Length
      ensures Decides(options, Todo(old(argv[..]), old(argvIdx) - 1, old(pushCount)), v)
      ensures code == v.code && parameter == v.parameter
      ensures Moved(old(argv[..]), old(argvIdx) - 1, old(pushCount), argv[..], argvIdx, pushCount, v) && 1 <= v.count
      ensures index == if v.keep then argvIdx else argv.Length - v.count
    {
      hide Moved, Resolves, Found, Rotated;
      ghost var todo := Todo(argv[..], argvIdx - 1, pushCount);
      assert todo[0] == argv[argvIdx];
      if !IsOption(argv[argvIdx]) {
        v := Verdict(NOT_OPTION, false, 1, None);
        RotatedIsPushed(argv[..], argvIdx - 1, pushCount, v);
        PushToEnd(argv, argvIdx);
        pushCount := pushCount + 1;
        argvIdx := argvIdx - 1;
        return NOT_OPTION, argv.Length - 1, None, v;
      }
      var r := FindOption(argv[argvIdx], options);
      if r < 0 {
        index, v := PushUnknown(argv, r);
        assert DecidesFor(options, todo, r, v);
        return r, index, None, v;
      }
      code, parameter, v := TakeOption(argv, options[r]);
      assert DecidesFor(options, todo, r, v);
      index := argvIdx;
    }

    /** An option that was not found, and what looks like its parameter, go to the end. */
    method PushUnknown(argv: array<string>, r: int) returns (index: int, ghost v: Verdict)
      requires 1 <= argvIdx && argvIdx + pushCount < argv.Length
      modifies this, argv
      ensures pushCount <= argv.Length
      ensures var todo := Todo(old(argv[..]), old(argvIdx) - 1, old(pushCount));
              && v == Verdict(r, false, if 1 < |todo| && !IsOption(todo[1]) then 2 else 1, None)
              && Moved(old(argv[..]), old(argvIdx) - 1, old(pushCount), argv[..], argvIdx, pushCount, v)
      ensures index == argv.Length - v.count
    {
      hide Moved, Rotated;
      ghost var args, i, p := argv[..], argvIdx - 1, pushCount;
      ghost var todo := Todo(args, i, p);
      v := Verdict(r, false, 1, None);
      PushToEnd(argv, argvIdx);
      pushCount := pushCount + 1;
      index := argv.Length - 1;
      if pushCount + argvIdx == argv.Length {
        RotatedIsPushed(args, i, p, v);
        argvIdx := argvIdx - 1;
        return;
      }
      NextAfterRotation(args, i + 1);
      assert argv[argvIdx] == argv[..][argvIdx] == todo[1];
      if !IsOption(argv[argvIdx]) {
        v := v.(count := 2);
        TwoRotatedArePushed(args, i, p, v);
        PushToEnd(argv, argvIdx);
        index := argv.Length - 2;
        pushCount := pushCount + 1;
      } else {
        RotatedIsPushed(args, i, p, v);
      }
      argvIdx := argvIdx - 1;
    }

    /** An option that was found, with its parameter if it has one. */
    method TakeOption(argv: array<string>, spec: OptionSpec)
      returns (code: int, parameter: Parameter, ghost v: Verdict)
      requires 1 <= argvIdx && argvIdx + pushCount < argv.Length
      modifies this
      ensures pushCount == old(pushCount)
      ensures v == Found(spec, Todo(argv[..], old(argvIdx) - 1, pushCount))
      ensures code == v.code && parameter == v.parameter && v.keep && 1 <= v.count
      ensures Moved(argv[..], old(argvIdx) - 1, pushCount, argv[..], argvIdx, pushCount, v)
    {
      hide Moved;
      ghost var args, i := argv[..], argvIdx - 1;
      ghost var todo := Todo(args, i, pushCount);
      assert |todo| == 1 <==> pushCount + argvIdx + 1 == argv.Length;
      parameter := None;
      v := Verdict(MISSING_PARAM, true, 1, None);
      SteppedIsKept(args, i, pushCount, v);
      match spec.param {
        case NoParam =>
        case NeedParam =>
          if pushCount + argvIdx + 1 == argv.Length {
            return MISSING_PARAM, None, v;
          }
          parameter := AsParam(argv[argvIdx + 1]);
          if parameter == None {
            return MISSING_PARAM, None, v;
          }
          argvIdx := argvIdx + 1;
        case OptionalParam =>
          if pushCount + argvIdx + 1 != argv.Length {
            parameter := AsParam(argv[argvIdx + 1]);
            if parameter != None {
              argvIdx := argvIdx + 1;
            }
          }
      }
      code := if spec.flagged then OPTION_FOUND else spec.val;
      v := Verdict(code, true, if parameter == None then 1 else 2, parameter);
      SteppedIsKept(args, i, pushCount, v);
    }
  }

  // ---------------------------------------------------------------- a whole run

  /** The elements of s whose mark is b, in order. */
  function Chosen<T>(s: seq<T>, mask: seq<bool>, b: bool): (t: seq<T>)
    requires |mask| == |s|
  {
    if s == [] then []
    else
      var n := |s| - 1;
      Chosen(s[..n], mask[..n], b) + (if mask[n] == b then [s[n]] else [])
  }

  function Marks(n: nat, keep: bool): (m: seq<bool>)
    ensures |m| == n
  {
    if n == 0 then [] else Marks(n - 1, keep) + [keep]
  }

  /** The marks say what the calls of a run do with the arguments: true is kept, false is pushed. */
  ghost predicate Parses(options: seq<OptionSpec>, args: seq<string>, mask: seq<bool>)
    decreases |args|
  {
    if args == [] then mask == []
    else
      exists v: Verdict, rest: seq<bool> ::
        && Decides(options, args, v) && 1 <= v.count <= |args|
        && mask == Marks(v.count, v.keep) + rest && Parses(options, args[v.count..], rest)
  }

  lemma DecidesUniquely(options: seq<OptionSpec>, args: seq<string>, v: Verdict, v': Verdict)
    requires Decides(options, args, v) && Decides(options, args, v')
    ensures v == v'
  {
    hide Resolves;
    if args != [] && IsOption(args[0]) {
      var r: int :| r < |options| && Resolves(options, args[0][1..], r) && DecidesFor(options, args, r, v);
      var r': int :| r' < |options| && Resolves(options, args[0][1..], r') && DecidesFor(options, args, r', v');
      ResolvesUniquely(options, args[0][1..], r, r');
    }
  }

  /** Which arguments are kept is determined by the arguments and the table. */
  lemma {:induction false} ParsesUniquely(options: seq<OptionSpec>, args: seq<string>, m: seq<bool>, m': seq<bool>)
    requires Parses(options, args, m) && Parses(options, args, m')
    ensures m == m'
    decreases |args|
  {
    hide Decides, Marks;
    if args != [] {
      var v: Verdict, rest: seq<bool> :|
        && Decides(options, args, v) && 1 <= v.count <= |args|
        && m == Marks(v.count, v.keep) + rest && Parses(options, args[v.count..], rest);
      var v': Verdict, rest': seq<bool> :|
        && Decides(options, args, v') && 1 <= v'.count <= |args|
        && m' == Marks(v'.count, v'.keep) + rest' && Parses(options, args[v'.count..], rest');
      DecidesUniquely(options, args, v, v');
      ParsesUniquely(options, args[v.count..], rest, rest');
    }
  }

  lemma ChosenSnoc<T>(s: seq<T>, mask: seq<bool>, x: T, keep: bool, b: bool)
    requires |mask| == |s|
    ensures Chosen(s + [x], mask + [keep], b) == Chosen(s, mask, b) + (if keep == b then [x] else [])
  {
    assert (s + [x])[..|s|] == s && (mask + [keep])[..|s|] == mask;
  }

  lemma {:induction false} ChosenAppend<T>(s: seq<T>, mask: seq<bool>, t: seq<T>, keep: bool, b: bool)
    requires |mask| == |s|
    ensures Chosen(s + t, mask + Marks(|t|, keep), b) == Chosen(s, mask, b) + (if keep == b then t else [])
  {
    hide Chosen;
    if t == [] {
      assert s + t == s && mask + [] == mask;
    } else {
      var n := |t| - 1;
      ChosenAppend(s, mask, t[..n], keep, b);
      ChosenSnoc(s + t[..n], mask + Marks(n, keep), t[n], keep, b);
      assert s + t[..n] + [t[n]] == s + t && t[..n] + [t[n]] == t;
      assert mask + Marks(n, keep) + [keep] == mask + Marks(|t|, keep);
    }
  }

  /** Kept and pushed arguments together are the arguments. */
  lemma {:induction false} ChosenIsAll<T>(s: seq<T>, mask: seq<bool>)
    requires |mask| == |s|
    ensures multiset(Chosen(s, mask, true)) + multiset(Chosen(s, mask, false)) == multiset(s)
  {
    hide Chosen;
    if s == [] {
      assert Chosen(s, mask, true) == Chosen(s, mask, false) == s by { ChosenOfNone(s, mask); }
    } else {
      var n := |s| - 1;
      ChosenIsAll(s[..n], mask[..n]);
      ChosenSnoc(s[..n], mask[..n], s[n], mask[n], true);
      ChosenSnoc(s[..n], mask[..n], s[n], mask[n], false);
      assert s == s[..n] + [s[n]] && mask == mask[..n] + [mask[n]];
    }
  }

  lemma ChosenOfNone<T>(s: seq<T>, mask: seq<bool>)
    requires s == [] && mask == []
    ensures Chosen(s, mask, true) == [] && Chosen(s, mask, false) == []
  {
  }

  /** What holds between calls: the first |mask| arguments are dealt with as marked, the rest is left. */
  ghost predicate Progress(all: seq<string>, args: seq<string>, i: nat, p: nat, mask: seq<bool>) {
    && Active(args, i, p) && |args| == |all| + 1 && |mask| <= |all|
    && Todo(args, i, p) == all[|mask|..]
    && Kept(args, i, p) == Chosen(all[..|mask|], mask, true)
    && Pushed(args, i, p) == Chosen(all[..|mask|], mask, false)
  }

  /** Marks for what is left complete the marks so far. */
  ghost predicate Extends(options: seq<OptionSpec>, all: seq<string>, mask: seq<bool>)
    requires |mask| <= |all|
  {
    forall m :: Parses(options, all[|mask|..], m) ==> Parses(options, all, mask + m)
  }

  lemma ProgressStep(all: seq<string>, args: seq<string>, i: nat, p: nat,
                     args': seq<string>, i': nat, p': nat, mask: seq<bool>, v: Verdict)
    requires Progress(all, args, i, p, mask) && Moved(args, i, p, args', i', p', v)
    ensures |mask| + v.count <= |all| && Progress(all, args', i', p', mask + Marks(v.count, v.keep))
    ensures args'[0] == args[0]
  {
    hide Chosen;
    var n := |mask| + v.count;
    var taken := all[|mask|..n];
    assert all[|mask|..][..v.count] == taken && all[|mask|..][v.count..] == all[n..];
    assert all[..n] == all[..|mask|] + taken;
    ChosenAppend(all[..|mask|], mask, taken, v.keep, true);
    ChosenAppend(all[..|mask|], mask, taken, v.keep, false);
  }

  lemma ParsesFirst(options: seq<OptionSpec>, args: seq<string>, v: Verdict, rest: seq<bool>)
    requires args != [] && Decides(options, args, v) && 1 <= v.count <= |args|
    requires Parses(options, args[v.count..], rest)
    ensures Parses(options, args, Marks(v.count, v.keep) + rest)
  {
    hide Decides, Marks;
  }

  lemma ExtendsStep(options: seq<OptionSpec>, all: seq<string>, mask: seq<bool>, v: Verdict)
    requires |mask| + v.count <= |all| && 1 <= v.count && Extends(options, all, mask)
    requires Decides(options, all[|mask|..], v)
    ensures Extends(options, all, mask + Marks(v.count, v.keep))
  {
    hide Parses, Decides, Marks;
    var mask' := mask + Marks(v.count, v.keep);
    assert all[|mask|..][v.count..] == all[|mask'|..];
    forall m | Parses(options, all[|mask'|..], m)
      ensures Parses(options, all, mask' + m)
    {
      ParsesFirst(options, all[|mask|..], v, m);
      assert mask' + m == mask + (Marks(v.count, v.keep) + m);
    }
  }

  lemma NothingDone(options: seq<OptionSpec>, args: seq<string>)
    requires args != []
    ensures Progress(args[1..], args, 0, 0, []) && Extends(options, args[1..], [])
  {
    var all := args[1..];
    assert all[0..] == all && all[..0] == [];
    assert forall m: seq<bool> :: [] + m == m;
  }

  lemma NothingLeft(options: seq<OptionSpec>, all: seq<string>, args: seq<string>, i: nat, p: nat, mask: seq<bool>)
    requires Progress(all, args, i, p, mask) && Extends(options, all, mask) && Todo(args, i, p) == []
    ensures |mask| == |all| && Parses(options, all, mask)
    ensures args[1..|args| - p] == Chosen(all, mask, true) && args[|args| - p..] == Chosen(all, mask, false)
  {
    hide Chosen;
    assert all[..|mask|] == all;
    assert Parses(options, all[|mask|..], []);
    assert mask + [] == mask;
  }

  lemma DoneMeansNoneLeft(options: seq<OptionSpec>, todo: seq<string>, v: Verdict)
    requires forall o :: o in options ==> o.flagged || o.val != DONE
    requires todo != [] && Decides(options, todo, v)
    ensures v.code != DONE
  {
    if IsOption(todo[0]) {
      var r: int :| r < |options| && Resolves(options, todo[0][1..], r) && DecidesFor(options, todo, r, v);
      if 0 <= r {
        assert options[r] in options;
      }
    }
  }

  /**
   Calls on a new parser until there is nothing left. This ends after at most one call per argument and
   one more; argv is then a stable partition of what it was, and index is the boundary.
   */
  method ParseAll(argv: array<string>, options: seq<OptionSpec>, start: int)
    returns (index: int, calls: nat, ghost mask: seq<bool>)
    requires 1 <= argv.Length
    requires forall o :: o in options ==> o.flagged || o.val != DONE
    modifies argv
    ensures 1 <= index <= argv.Length && calls <= argv.Length
    ensures argv[0] == old(argv[0])
    ensures |mask| == argv.Length - 1 && Parses(options, old(argv[1..]), mask)
    ensures argv[1..index] == Chosen(old(argv[1..]), mask, true)
    ensures argv[index..] == Chosen(old(argv[1..]), mask, false)
  {
    hide Decides, Moved, Parses, Chosen, Extends, Kept, Pushed, Marks;
    ghost var all := argv[1..];
    var parser := new Parser();
    mask := [];
    assert argv[..][1..] == all;
    NothingDone(options, argv[..]);
    var code, parameter;
    ghost var v;
    index, calls := start, 0;
    while true
      invariant index == -1 ==> parser.argvIdx == 0 && parser.pushCount == 0
      invariant calls <= |mask| && argv[0] == old(argv[0])
      invariant Progress(all, argv[..], parser.argvIdx, parser.pushCount, mask) && Extends(options, all, mask)
      decreases |all| - |mask|
    {
      ghost var args, i, p := argv[..], parser.argvIdx, parser.pushCount;
      code, index, parameter, v := parser.Call(argv, options, index);
      calls := calls + 1;
      if code == DONE {
        if Todo(args, i, p) != [] {
          DoneMeansNoneLeft(options, Todo(args, i, p), v);
        }
        NothingLeft(options, all, args, i, p, mask);
        return;
      }
      ProgressStep(all, args, i, p, argv[..], parser.argvIdx, parser.pushCount, mask, v);
      ExtendsStep(options, all, mask, v);
      mask := mask + Marks(v.count, v.keep);
    }
  }
}
