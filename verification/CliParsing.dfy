/** The loop of external/CLI/CLI11.hpp that consumes the command line of an application without
    subcommands.  The argument vector, which the source keeps reversed, is in command-line order here.
 */
module CliParsing {
  import opened Options
  import CheckedMultiply
  import opened Text

  // ---------------------------------------------------------------- the application

  /** What an option was declared with.  `added` are the results that one text adds (`_add_result`),
      `flag` the value of a flag under some name, or None if it may not be overridden
      (`get_flag_value`), `valid` whether its validators accept a text (`_validate`). */
  datatype Opt = Opt(
    shorts: seq<string>,
    longs: seq<string>,
    positional: bool,
    required: bool,
    typeMin: nat,
    typeMax: nat,
    expectedMin: nat,
    expectedMax: nat,
    extra: bool,
    separator: bool,
    added: string -> seq<string>,
    flag: (string, string) -> Option<string>,
    valid: string -> bool)

  datatype App = App(
    options: seq<Opt>,
    positionalsAtEnd: bool,
    validatePositionals: bool,
    validateOptional: bool,
    windowsStyle: bool,
    prefixCommand: bool)

  predicate WellFormed(app: App) {
    forall i :: 0 <= i < |app.options| ==> app.options[i].typeMin <= app.options[i].typeMax
  }

  datatype Class = Mark | Long | Short | Windows | Other

  datatype Missing = Missing(kind: Class, text: string)

  // `results[i]` are those of option `i`; `order` is `parse_order_`.
  datatype State = State(
    args: seq<string>,
    positionalOnly: bool,
    missing: seq<Missing>,
    results: seq<seq<string>>,
    order: seq<nat>)

  datatype Failure = Horrible | TooFew | Partial | FlagOverride | Extras

  datatype Outcome = Parsed(state: State) | Thrown(why: Failure)

  ghost predicate Of(app: App, s: State) {
    |s.results| == |app.options|
  }

  // ---------------------------------------------------------------- classifying a token

  predicate FirstChar(c: char) {
    c != '-' && c != '!' && c != ' ' && c != '\n'
  }

  // A token in parts: the name, the value behind '=' or ':', what follows a short name.
  datatype Parts = Parts(name: string, value: string, rest: string)

  function SplitShort(s: string): Option<Parts> {
    if |s| > 1 && s[0] == '-' && FirstChar(s[1]) then Some(Parts(s[1..2], "", s[2..])) else None
  }

  function SplitLong(s: string): Option<Parts> {
    if |s| > 2 && s[..2] == "--" && FirstChar(s[2]) then
      var i := Find(s, "=", 2);
      if i <= |s| then Some(Parts(s[2..i], s[i + 1..], "")) else Some(Parts(s[2..], "", ""))
    else None
  }

  function SplitWindows(s: string): Option<Parts> {
    if |s| > 1 && s[0] == '/' && FirstChar(s[1]) then
      var i := Find(s, ":", 1);
      if i <= |s| then Some(Parts(s[1..i], s[i + 1..], "")) else Some(Parts(s[1..], "", ""))
    else None
  }

  function SplitAs(kind: Class, s: string): Option<Parts> {
    match kind
    case Long => SplitLong(s)
    case Short => SplitShort(s)
    case Windows => SplitWindows(s)
    case _ => None
  }

  // `_recognize`
  function Recognize(app: App, s: string): Class {
    if s == "--" then Mark
    else if SplitLong(s).Some? then Long
    else if SplitShort(s).Some? then
      var name := SplitShort(s).value.name;
      if '0' <= name[0] <= '9' && FindOption(app, Short, name, 0).None? then Other else Short
    else if app.windowsStyle && SplitWindows(s).Some? then Windows
    else Other
  }

  predicate Named(o: Opt, kind: Class, name: string) {
    (kind.Long? && name in o.longs) || (kind.Short? && name in o.shorts)
    || (kind.Windows? && (name in o.longs || name in o.shorts))
  }

  // The first option of that name from `from` on
  function FindOption(app: App, kind: Class, name: string, from: nat): (r: Option<nat>)
    ensures r.Some? ==> from <= r.value < |app.options| && Named(app.options[r.value], kind, name)
    ensures r.Some? ==> forall i :: from <= i < r.value ==> !Named(app.options[i], kind, name)
    ensures r.None? ==> forall i :: from <= i < |app.options| ==> !Named(app.options[i], kind, name)
    decreases |app.options| - from
  {
    if from >= |app.options| then None
    else if Named(app.options[from], kind, name) then Some(from)
    else FindOption(app, kind, name, from + 1)
  }

  // ---------------------------------------------------------------- counting

  function ItemsMin(o: Opt): nat {
    o.typeMin * o.expectedMin
  }

  // `checked_multiply` of two sizes, or the size of an unlimited vector
  function Items(size: nat, times: nat): nat {
    if size * times <= CheckedMultiply.Highest(CheckedMultiply.INT) then size * times else CheckedMultiply.UNLIMITED
  }

  function MinNum(o: Opt): nat {
    if o.typeMin <= ItemsMin(o) then o.typeMin else ItemsMin(o)
  }

  function MaxNum(o: Opt): nat {
    var most := Items(o.typeMax, o.expectedMax);
    if most >= CheckedMultiply.UNLIMITED / 16 && !o.extra then Items(o.typeMax, o.expectedMin) else most
  }

  // `_count_remaining_positionals(true)`, over the options before `n`
  function RequiredLeft(app: App, results: seq<seq<string>>, n: nat): nat
    requires n <= |app.options| == |results|
  {
    if n == 0 then 0
    else
      var o, count := app.options[n - 1], |results[n - 1]|;
      RequiredLeft(app, results, n - 1)
      + if o.positional && o.required && count < ItemsMin(o) then ItemsMin(o) - count else 0
  }

  // ---------------------------------------------------------------- results

  // `add_result`
  function Add(app: App, s: State, i: nat, text: string): (r: State)
    requires Of(app, s) && i < |app.options|
    ensures Of(app, r) && r.args == s.args && r.missing == s.missing && r.positionalOnly == s.positionalOnly
  {
    s.(results := s.results[i := s.results[i] + app.options[i].added(text)])
  }

  // An empty result between two groups
  function AddSeparator(app: App, s: State, i: nat): (r: State)
    requires Of(app, s) && i < |app.options|
    ensures Of(app, r) && r.args == s.args && r.missing == s.missing && r.positionalOnly == s.positionalOnly
  {
    var had := s.results[i];
    if app.options[i].separator && had != [] && had[|had| - 1] != "" then Add(app, s, i, "") else s
  }

  function Ordered(s: State, i: nat): State {
    s.(order := s.order + [i])
  }

  // The next argument becomes a result.
  function Eat(app: App, s: State, i: nat): (r: State)
    requires Of(app, s) && i < |app.options| && s.args != []
    ensures Of(app, r) && r.args == s.args[1..] && r.missing == s.missing && r.positionalOnly == s.positionalOnly
  {
    Ordered(Add(app, s, i, s.args[0]), i).(args := s.args[1..])
  }

  predicate Tail(rest: seq<string>, all: seq<string>) {
    |rest| <= |all| && rest == all[|all| - |rest|..]
  }

  lemma TailSkips(rest: seq<string>, all: seq<string>)
    requires all != [] && Tail(rest, all[1..])
    ensures Tail(rest, all)
  {
  }

  datatype Collected = Collected(state: State, count: nat)

  // Gathering the minimum number of arguments
  function Gather(app: App, s: State, i: nat, count: nat): (r: Collected)
    requires Of(app, s) && i < |app.options|
    ensures Of(app, r.state) && r.state.missing == s.missing
    ensures Tail(r.state.args, s.args) && r.state.positionalOnly == s.positionalOnly
    decreases |s.args|
  {
    if MinNum(app.options[i]) > count && s.args != [] then
      var r := Gather(app, Eat(app, s, i), i, count + |app.options[i].added(s.args[0])|);
      TailSkips(r.state.args, s.args);
      r
    else Collected(s, count)
  }

  // Whether one more optional argument is taken
  predicate Takes(app: App, s: State, i: nat, count: nat, left: nat)
    requires i < |app.options|
  {
    var o := app.options[i];
    && (count < MaxNum(o) || o.extra) && s.args != [] && Recognize(app, s.args[0]).Other?
    && left < |s.args| && (app.validateOptional ==> o.valid(s.args[0]))
  }

  function Optional(app: App, s: State, i: nat, count: nat, left: nat): (r: Collected)
    requires Of(app, s) && i < |app.options|
    ensures Of(app, r.state) && r.state.missing == s.missing
    ensures Tail(r.state.args, s.args) && r.state.positionalOnly == s.positionalOnly
    decreases |s.args|
  {
    if Takes(app, s, i, count, left) then
      var r := Optional(app, Eat(app, s, i), i, count + |app.options[i].added(s.args[0])|, left);
      TailSkips(r.state.args, s.args);
      r
    else Collected(s, count)
  }

  // ---------------------------------------------------------------- one option

  // What a name is followed by in its own token: "--name=value", "-nrest", or a flag.
  datatype Own = Took(state: State, count: nat, rest: string) | Refused

  function TakeOwn(app: App, s: State, i: nat, parts: Parts): (r: Own)
    requires Of(app, s) && i < |app.options|
    ensures !r.Refused? ==> Of(app, r.state) && r.state.args == s.args && r.state.missing == s.missing
                            && r.state.positionalOnly == s.positionalOnly && (r.rest == parts.rest || r.rest == "")
  {
    var o := app.options[i];
    if MaxNum(o) == 0 then
      match o.flag(parts.name, parts.value)
      case None => Refused
      case Some(value) => Took(Ordered(Add(app, s, i, value), i), 0, parts.rest)
    else if parts.value != "" then
      Took(Ordered(Add(app, s, i, parts.value), i), |o.added(parts.value)|, parts.rest)
    else if parts.rest != "" then
      Took(Ordered(Add(app, s, i, parts.rest), i), |o.added(parts.rest)|, "")
    else Took(s, 0, "")
  }

  // A "--" that ends the optional arguments goes with them.
  function PopMark(app: App, s: State): (r: State)
    ensures r.results == s.results && r.missing == s.missing && r.positionalOnly == s.positionalOnly && r.order == s.order
    ensures Tail(r.args, s.args)
  {
    if s.args != [] && Recognize(app, s.args[0]).Mark? then s.(args := s.args[1..]) else s
  }

  // Optional arguments, a "--" that ends them, and the value of an option that got none.
  function TakeMore(app: App, s: State, i: nat, name: string, count: nat): (r: Option<Collected>)
    requires Of(app, s) && i < |app.options|
    ensures r.Some? ==> Of(app, r.value.state) && r.value.state.missing == s.missing
                        && r.value.state.positionalOnly == s.positionalOnly && Tail(r.value.state.args, s.args)
  {
    var o := app.options[i];
    if !(MaxNum(o) > count || o.extra) then Some(Collected(s, count))
    else
      var c := Optional(app, s, i, count, RequiredLeft(app, s.results, |app.options|));
      var t := c.state;
      var ended := PopMark(app, t);
      if MinNum(o) == 0 && MaxNum(o) > 0 && c.count == 0 then
        match o.flag(name, "")
        case None => None
        case Some(value) => Some(Collected(Ordered(Add(app, ended, i, value), i), 0))
      else Some(Collected(ended, c.count))
  }

  function PushBack(s: State, rest: string): State {
    if rest == "" then s else s.(args := ["-" + rest] + s.args)
  }

  // Whether the results so far leave a type incomplete.
  predicate Incomplete(o: Opt, count: nat)
    requires o.typeMin <= o.typeMax
  {
    MinNum(o) > 0 && count % o.typeMax != 0
  }

  // Everything `_parse_arg` does once the option is known.
  function ParseOption(app: App, s: State, i: nat, parts: Parts): Outcome
    requires WellFormed(app) && Of(app, s) && i < |app.options|
  {
    var o := app.options[i];
    match TakeOwn(app, AddSeparator(app, s, i), i, parts)
    case Refused => Thrown(FlagOverride)
    case Took(own, count, rest) =>
      var g := Gather(app, own, i, count);
      if MinNum(o) > g.count then Thrown(TooFew)
      else
        match TakeMore(app, g.state, i, parts.name, g.count)
        case None => Thrown(FlagOverride)
        case Some(m) =>
          if Incomplete(o, m.count) then
            if o.typeMax != o.typeMin then Parsed(PushBack(Add(app, m.state, i, ""), rest)) else Thrown(Partial)
          else Parsed(PushBack(m.state, rest))
  }

  // `_parse_arg`
  function ParseArg(app: App, s: State, kind: Class): Outcome
    requires WellFormed(app) && Of(app, s) && s.args != []
  {
    match SplitAs(kind, s.args[0])
    case None => Thrown(Horrible)
    case Some(parts) =>
      var popped := s.(args := s.args[1..]);
      match FindOption(app, kind, parts.name, 0)
      case None => Parsed(popped.(missing := s.missing + [Missing(kind, s.args[0])]))
      case Some(i) => ParseOption(app, popped, i, parts)
  }

  // ---------------------------------------------------------------- positionals

  predicate Wants(app: App, s: State, i: nat, urgent: bool)
    requires Of(app, s) && i < |app.options| && s.args != []
  {
    var o := app.options[i];
    && o.positional && (urgent ==> o.required)
    && (|s.results[i]| < ItemsMin(o) || (!urgent && o.extra))
    && (app.validatePositionals ==> o.valid(s.args[0]))
  }

  // The first positional option from `from` on that takes the next argument.
  function FindPositional(app: App, s: State, urgent: bool, from: nat): (r: Option<nat>)
    requires Of(app, s) && s.args != []
    ensures r.Some? ==> from <= r.value < |app.options| && Wants(app, s, r.value, urgent)
    ensures r.Some? ==> forall i :: from <= i < r.value ==> !Wants(app, s, i, urgent)
    ensures r.None? ==> forall i :: from <= i < |app.options| ==> !Wants(app, s, i, urgent)
    decreases |app.options| - from
  {
    if from >= |app.options| then None
    else if Wants(app, s, from, urgent) then Some(from)
    else FindPositional(app, s, urgent, from + 1)
  }

  function AllMissing(args: seq<string>): (r: seq<Missing>)
    ensures |r| == |args| && forall i :: 0 <= i < |r| ==> r[i] == Missing(Other, args[i])
  {
    seq(|args|, i requires 0 <= i < |args| => Missing(Other, args[i]))
  }

  // The positional option for the next argument, those that are required at the end first.
  function ChoosePositional(app: App, s: State): (r: Option<nat>)
    requires Of(app, s) && s.args != []
    ensures r.Some? ==> r.value < |app.options|
  {
    var urgent := if app.positionalsAtEnd && |s.args| <= RequiredLeft(app, s.results, |app.options|)
                  then FindPositional(app, s, true, 0) else None;
    if urgent.Some? then urgent else FindPositional(app, s, false, 0)
  }

  // `_parse_positional`
  function ParsePositional(app: App, s: State): Outcome
    requires Of(app, s) && s.args != []
  {
    match ChoosePositional(app, s)
    case Some(i) => Parsed(Eat(app, AddSeparator(app, s, i), i))
    case None =>
      if app.positionalsAtEnd then Thrown(Extras)
      else
        var gone := s.(args := s.args[1..], missing := s.missing + [Missing(Other, s.args[0])]);
        Parsed(if app.prefixCommand then gone.(args := [], missing := gone.missing + AllMissing(gone.args)) else gone)
  }

  // `_parse_single`
  function ParseSingle(app: App, s: State): Outcome
    requires WellFormed(app) && Of(app, s) && s.args != []
  {
    var kind := if s.positionalOnly then Other else Recognize(app, s.args[0]);
    match kind
    case Mark => Parsed(s.(args := s.args[1..], positionalOnly := true, missing := s.missing + [Missing(Mark, "--")]))
    case Other =>
      (match ParsePositional(app, s)
       case Thrown(why) => Thrown(why)
       case Parsed(t) => Parsed(t.(positionalOnly := t.positionalOnly || app.positionalsAtEnd)))
    case _ => ParseArg(app, s, kind)
  }

  // ---------------------------------------------------------------- termination

  function Measure(args: seq<string>): nat {
    if args == [] then 0 else |args[0]| + 1 + Measure(args[1..])
  }

  lemma TailRest(rest: seq<string>, all: seq<string>)
    requires Tail(rest, all)
    ensures |rest| < |all| ==> Tail(rest, all[1..])
    ensures |rest| == |all| ==> rest == all
  {
  }

  lemma {:induction false} TailMeasure(rest: seq<string>, all: seq<string>)
    requires Tail(rest, all)
    ensures Measure(rest) <= Measure(all)
    ensures |rest| < |all| ==> Measure(rest) < Measure(all)
    decreases |all|
  {
    TailRest(rest, all);
    hide Tail;
    if |rest| < |all| {
      TailMeasure(rest, all[1..]);
    }
  }

  // A token put back is what followed the short name of the one just popped.
  ghost predicate Cut(after: string, token: string) {
    |after| >= 2 && |after| < |token| && after[0] == '-' && after[1..] == token[|token| - |after| + 1..]
  }

  // What an option leaves of the arguments: some end of them, behind a remainder of the popped token.
  ghost predicate Leaves(before: seq<string>, after: seq<string>) {
    before != [] && (Tail(after, before[1..])
                     || (after != [] && Cut(after[0], before[0]) && Tail(after[1..], before[1..])))
  }

  lemma LeavesLess(before: seq<string>, after: seq<string>)
    requires Leaves(before, after)
    ensures Measure(after) < Measure(before)
  {
    if Tail(after, before[1..]) {
      TailMeasure(after, before[1..]);
    } else {
      TailMeasure(after[1..], before[1..]);
    }
  }

  lemma TailTail(a: seq<string>, b: seq<string>, c: seq<string>)
    requires Tail(a, b) && Tail(b, c)
    ensures Tail(a, c)
  {
  }

  lemma ParseOptionLeaves(app: App, s: State, i: nat, parts: Parts)
    requires WellFormed(app) && Of(app, s) && i < |app.options|
    ensures match ParseOption(app, s, i, parts)
            case Thrown(why) => !why.Horrible?
            case Parsed(t) =>
              && Of(app, t) && t.missing == s.missing && t.positionalOnly == s.positionalOnly
              && (Tail(t.args, s.args)
                  || (t.args != [] && parts.rest != "" && t.args[0] == "-" + parts.rest && Tail(t.args[1..], s.args)))
  {
    hide Gather, TakeMore, TakeOwn, AddSeparator, Tail, MinNum;
    var own := TakeOwn(app, AddSeparator(app, s, i), i, parts);
    if own.Took? {
      var g := Gather(app, own.state, i, own.count);
      var m := TakeMore(app, g.state, i, parts.name, g.count);
      if m.Some? {
        TailTail(m.value.state.args, g.state.args, s.args);
      }
    }
  }

  lemma SplitShortCut(s: string)
    requires SplitShort(s).Some? && SplitShort(s).value.rest != ""
    ensures Cut("-" + SplitShort(s).value.rest, s)
  {
  }

  lemma OnlyShortHasRest(kind: Class, s: string)
    requires SplitAs(kind, s).Some? && SplitAs(kind, s).value.rest != ""
    ensures SplitShort(s) == SplitAs(kind, s)
  {
  }

  // The first argument is missing now.
  ghost predicate OneMore(s: State, t: State)
    requires s.args != []
  {
    |t.missing| > |s.missing|
    && var one := t.missing[|s.missing|];
    t.missing == s.missing + [one] && one.text == s.args[0]
  }

  // What one call does to the arguments and to what is missing.
  ghost predicate Consumes(s: State, t: State) {
    || (t.missing == s.missing && Leaves(s.args, t.args))
    || (s.args != [] && t.args == s.args[1..] && OneMore(s, t))
    || (s.args != [] && t.args == [] && t.missing == s.missing + AllMissing(s.args))
  }

  lemma ParseArgConsumes(app: App, s: State, kind: Class)
    requires WellFormed(app) && Of(app, s) && s.args != [] && SplitAs(kind, s.args[0]).Some?
    ensures match ParseArg(app, s, kind)
            case Thrown(why) => !why.Horrible?
            case Parsed(t) => Of(app, t) && Consumes(s, t)
  {
    var parts := SplitAs(kind, s.args[0]).value;
    var found := FindOption(app, kind, parts.name, 0);
    if found.Some? {
      hide ParseOption, SplitAs, SplitShort;
      ParseOptionLeaves(app, s.(args := s.args[1..]), found.value, parts);
      if parts.rest != "" {
        OnlyShortHasRest(kind, s.args[0]);
        SplitShortCut(s.args[0]);
      }
    }
  }

  lemma ParseSingleConsumes(app: App, s: State)
    requires WellFormed(app) && Of(app, s) && s.args != []
    ensures match ParseSingle(app, s)
            case Thrown(why) => !why.Horrible?
            case Parsed(t) => Of(app, t) && Consumes(s, t)
  {
    hide ParseArg, ParsePositional, Recognize, SplitAs, Leaves;
    var kind := if s.positionalOnly then Other else Recognize(app, s.args[0]);
    if kind.Other? {
      ParsePositionalConsumes(app, s);
    } else {
      KindSplits(app, s.args[0]);
      if !kind.Mark? {
        ParseArgConsumes(app, s, kind);
      }
    }
  }

  lemma KindSplits(app: App, token: string)
    ensures var kind := Recognize(app, token); !kind.Mark? && !kind.Other? ==> SplitAs(kind, token).Some?
    ensures Recognize(app, token).Mark? ==> token == "--"
  {
  }

  lemma ParsePositionalConsumes(app: App, s: State)
    requires Of(app, s) && s.args != []
    ensures match ParsePositional(app, s)
            case Thrown(why) => !why.Horrible?
            case Parsed(t) => Of(app, t) && Consumes(s, t) && (s.positionalOnly ==> t.positionalOnly)
  {
    hide ChoosePositional;
    assert Tail(s.args[1..], s.args[1..]);
    AllMissingCons(s.missing, s.args);
  }

  /** Every call throws or makes the sum of the lengths, each plus one, smaller, even when it pushes
      the remainder of a group of short flags back; and it never throws the error that the source says
      should not be seen. */
  lemma ParseSingleProgress(app: App, s: State)
    requires WellFormed(app) && Of(app, s) && s.args != []
    ensures match ParseSingle(app, s)
            case Thrown(why) => !why.Horrible?
            case Parsed(t) => Of(app, t) && Measure(t.args) < Measure(s.args)
  {
    ParseSingleConsumes(app, s);
    hide ParseSingle;
    match ParseSingle(app, s)
    case Thrown(_) =>
    case Parsed(t) =>
      if t.missing == s.missing && Leaves(s.args, t.args) {
        LeavesLess(s.args, t.args);
      }
  }

  // `_parse`, up to the processing of what was collected
  function ParseAll(app: App, s: State): Outcome
    requires WellFormed(app) && Of(app, s)
    decreases Measure(s.args)
  {
    if s.args == [] then Parsed(s)
    else
      ParseSingleProgress(app, s);
      match ParseSingle(app, s)
      case Thrown(why) => Thrown(why)
      case Parsed(t) => ParseAll(app, t)
  }

  // ---------------------------------------------------------------- what is missing

  // A token of the line, or what was put back of it.
  ghost predicate PartOf(text: string, token: string) {
    text == token || Cut(text, token)
  }

  // The texts stand for tokens of the line in this order, each token at most once.
  ghost predicate InOrder(texts: seq<Missing>, line: seq<string>) {
    texts == []
    || (line != []
        && (InOrder(texts, line[..|line| - 1])
            || (PartOf(texts[|texts| - 1].text, line[|line| - 1]) && InOrder(texts[..|texts| - 1], line[..|line| - 1]))))
  }

  lemma {:induction false} InOrderMore(texts: seq<Missing>, line: seq<string>, n: nat)
    requires n <= |line| && InOrder(texts, line[..n])
    ensures InOrder(texts, line)
  {
    if n == |line| {
      assert line[..n] == line;
    } else {
      assert line[..|line| - 1][..n] == line[..n];
      InOrderMore(texts, line[..|line| - 1], n);
    }
  }

  lemma InOrderAdd(texts: seq<Missing>, one: Missing, line: seq<string>, n: nat)
    requires n < |line| && InOrder(texts, line[..n]) && PartOf(one.text, line[n])
    ensures InOrder(texts + [one], line[..n + 1])
  {
    assert (texts + [one])[..|texts|] == texts && line[..n + 1][..n] == line[..n];
  }

  // The arguments are what is left of the line: its tokens from `next` on, behind nothing or a
  // remainder of token `at`.
  ghost predicate LeftOf(args: seq<string>, line: seq<string>, at: nat, next: nat) {
    at <= next <= |line|
    && if at == next then args == line[next..]
       else args != [] && args[1..] == line[next..] && PartOf(args[0], line[at])
  }

  // What is missing so far stands for tokens before those that are left.
  ghost predicate Accounted(s: State, line: seq<string>, at: nat, next: nat) {
    LeftOf(s.args, line, at, next) && InOrder(s.missing, line[..at])
  }

  lemma CutCut(a: string, b: string, c: string)
    requires Cut(a, b) && PartOf(b, c)
    ensures Cut(a, c)
  {
    if b != c {
      var k := |b| - |a| + 1;
      assert a[1..] == b[k..] == b[1..][k - 1..];
    }
  }

  // The head of the arguments belongs to some token before the rest.
  lemma HeadOf(args: seq<string>, line: seq<string>, at: nat, next: nat) returns (rest: nat)
    requires LeftOf(args, line, at, next) && args != []
    ensures at < rest <= |line| && args[1..] == line[rest..] && PartOf(args[0], line[at])
  {
    rest := if at == next then next + 1 else next;
    if at == next {
      assert line[next..][1..] == line[next + 1..];
    }
  }

  lemma TailOfLine(rest: seq<string>, line: seq<string>, from: nat) returns (next: nat)
    requires from <= |line| && Tail(rest, line[from..])
    ensures from <= next <= |line| && rest == line[next..]
  {
    next := |line| - |rest|;
    assert line[from..][next - from..] == line[next..];
  }

  lemma AllMissingCons(texts: seq<Missing>, args: seq<string>)
    requires args != []
    ensures texts + AllMissing(args) == texts + [Missing(Other, args[0])] + AllMissing(args[1..])
  {
  }

  lemma {:induction false} AllMissingInOrder(texts: seq<Missing>, args: seq<string>, line: seq<string>, n: nat)
    requires n <= |line| && args == line[n..] && InOrder(texts, line[..n])
    ensures InOrder(texts + AllMissing(args), line)
    decreases |args|
  {
    if args == [] {
      assert line[..n] == line && texts + AllMissing(args) == texts;
    } else {
      InOrderAdd(texts, Missing(Other, args[0]), line, n);
      assert args[1..] == line[n + 1..];
      AllMissingInOrder(texts + [Missing(Other, args[0])], args[1..], line, n + 1);
      AllMissingCons(texts, args);
    }
  }

  lemma InOrderLater(texts: seq<Missing>, line: seq<string>, n: nat, m: nat)
    requires n <= m <= |line| && InOrder(texts, line[..n])
    ensures InOrder(texts, line[..m])
  {
    assert line[..m][..n] == line[..n];
    InOrderMore(texts, line[..m], n);
  }

  lemma LeavesAccounted(s: State, t: State, line: seq<string>, at: nat, next: nat) returns (at': nat, next': nat)
    requires Accounted(s, line, at, next) && t.missing == s.missing && Leaves(s.args, t.args)
    ensures Accounted(t, line, at', next')
  {
    hide InOrder, PartOf, Cut, Tail;
    var rest := HeadOf(s.args, line, at, next);
    if Tail(t.args, s.args[1..]) {
      at' := TailOfLine(t.args, line, rest);
      next' := at';
      InOrderLater(t.missing, line, at, at');
    } else {
      at' := at;
      next' := TailOfLine(t.args[1..], line, rest);
      CutCut(t.args[0], s.args[0], line[at]);
      CutIsPart(t.args[0], line[at]);
    }
  }

  lemma OneMoreAccounted(s: State, t: State, line: seq<string>, at: nat, next: nat) returns (at': nat)
    requires Accounted(s, line, at, next) && s.args != [] && t.args == s.args[1..] && OneMore(s, t)
    ensures Accounted(t, line, at', at')
  {
    hide InOrder, PartOf;
    at' := HeadOf(s.args, line, at, next);
    InOrderAdd(s.missing, t.missing[|s.missing|], line, at);
    InOrderLater(t.missing, line, at + 1, at');
  }

  lemma AllMissingAccounted(s: State, t: State, line: seq<string>, at: nat, next: nat)
    requires Accounted(s, line, at, next) && s.args != []
    requires t.args == [] && t.missing == s.missing + AllMissing(s.args)
    ensures Accounted(t, line, |line|, |line|)
  {
    hide InOrder, PartOf, AllMissing;
    var rest := HeadOf(s.args, line, at, next);
    var one := Missing(Other, s.args[0]);
    InOrderAdd(s.missing, one, line, at);
    InOrderLater(s.missing + [one], line, at + 1, rest);
    AllMissingInOrder(s.missing + [one], s.args[1..], line, rest);
    AllMissingCons(s.missing, s.args);
    assert line[..|line|] == line;
  }

  lemma ConsumesAccounted(s: State, t: State, line: seq<string>, at: nat, next: nat) returns (at': nat, next': nat)
    requires Accounted(s, line, at, next) && s.args != [] && Consumes(s, t)
    ensures Accounted(t, line, at', next')
  {
    hide Accounted, Leaves, AllMissing;
    if t.missing == s.missing && Leaves(s.args, t.args) {
      at', next' := LeavesAccounted(s, t, line, at, next);
    } else if t.args == s.args[1..] && OneMore(s, t) {
      at' := OneMoreAccounted(s, t, line, at, next);
      next' := at';
    } else {
      at', next' := |line|, |line|;
      AllMissingAccounted(s, t, line, at, next);
    }
  }

  lemma CutIsPart(text: string, token: string)
    requires Cut(text, token)
    ensures PartOf(text, token)
  {
  }

  lemma {:induction false} ParseAllAccounted(app: App, s: State, line: seq<string>, at: nat, next: nat)
    requires WellFormed(app) && Of(app, s) && Accounted(s, line, at, next)
    ensures var o := ParseAll(app, s);
            && (o.Thrown? ==> !o.why.Horrible?)
            && (o.Parsed? ==> Of(app, o.state) && o.state.args == [] && InOrder(o.state.missing, line))
    decreases Measure(s.args)
  {
    hide ParseSingle, InOrder, Accounted, Consumes;
    if s.args == [] {
      AccountedAtEnd(s, line, at, next);
    } else {
      ParseSingleProgress(app, s);
      ParseSingleConsumes(app, s);
      var one := ParseSingle(app, s);
      if one.Parsed? {
        var at', next' := ConsumesAccounted(s, one.state, line, at, next);
        ParseAllAccounted(app, one.state, line, at', next');
      }
    }
  }

  lemma AccountedAtEnd(s: State, line: seq<string>, at: nat, next: nat)
    requires Accounted(s, line, at, next) && s.args == []
    ensures InOrder(s.missing, line)
  {
    InOrderMore(s.missing, line, at);
  }

  function Start(app: App, line: seq<string>): State {
    State(line, false, [], seq(|app.options|, i => []), [])
  }

  /** For every command line, parsing ends, all arguments consumed or with one of the errors meant for
      users; what no option took is missing in command-line order, each token at most once, whole or as
      the remainder that was put back of it. */
  lemma EveryLine(app: App, line: seq<string>)
    requires WellFormed(app)
    ensures var o := ParseAll(app, Start(app, line));
            && (o.Thrown? ==> !o.why.Horrible?)
            && (o.Parsed? ==> o.state.args == [] && InOrder(o.state.missing, line))
  {
    var s := Start(app, line);
    assert line[0..] == line && line[..0] == [];
    assert Accounted(s, line, 0, 0);
    ParseAllAccounted(app, s, line, 0, 0);
  }

  // Whether nothing of the application takes the first argument.
  ghost predicate Unmatched(app: App, s: State)
    requires Of(app, s) && s.args != []
  {
    var kind := if s.positionalOnly then Other else Recognize(app, s.args[0]);
    match kind
    case Mark => true
    case Other => forall i :: 0 <= i < |app.options| ==> !Wants(app, s, i, false)
    case _ => forall i :: 0 <= i < |app.options| ==> !Named(app.options[i], kind, SplitAs(kind, s.args[0]).value.name)
  }

  lemma UrgentWants(app: App, s: State, i: nat)
    requires Of(app, s) && s.args != [] && i < |app.options| && Wants(app, s, i, true)
    ensures Wants(app, s, i, false)
  {
  }

  lemma ChosenWants(app: App, s: State)
    requires Of(app, s) && s.args != []
    ensures ChoosePositional(app, s).None? <==> forall i :: 0 <= i < |app.options| ==> !Wants(app, s, i, false)
  {
    var urgent := FindPositional(app, s, true, 0);
    if urgent.Some? {
      UrgentWants(app, s, urgent.value);
    }
  }

  /** A call that does not throw moves its token to what is missing, unchanged, if and only if no option
      takes it; otherwise what is missing stays as it is. */
  lemma MissingIfUnmatched(app: App, s: State)
    requires WellFormed(app) && Of(app, s) && s.args != [] && ParseSingle(app, s).Parsed?
    ensures var t := ParseSingle(app, s).state;
            if !Unmatched(app, s) then t.missing == s.missing
            else if app.prefixCommand && (s.positionalOnly || Recognize(app, s.args[0]).Other?) then
              t.missing == s.missing + AllMissing(s.args) && t.args == []
            else OneMore(s, t) && t.args == s.args[1..]
  {
    hide Wants, ParseOption, ChoosePositional;
    var kind := if s.positionalOnly then Other else Recognize(app, s.args[0]);
    match kind
    case Mark =>
    case Other =>
      ChosenWants(app, s);
      AllMissingCons(s.missing, s.args);
    case _ =>
      var parts := SplitAs(kind, s.args[0]).value;
      var found := FindOption(app, kind, parts.name, 0);
      if found.Some? {
        ParseOptionLeaves(app, s.(args := s.args[1..]), found.value, parts);
      }
  }

  // ---------------------------------------------------------------- what an option gathers

  function AddedBy(o: Opt, texts: seq<string>): seq<string> {
    if texts == [] then [] else o.added(texts[0]) + AddedBy(o, texts[1..])
  }

  // Option `i` took the first `k` arguments: their results in order behind its own, nothing else.
  ghost predicate TookFirst(app: App, s: State, t: State, i: nat, k: nat)
    requires Of(app, s) && i < |app.options|
  {
    && k <= |s.args| && t.args == s.args[k..]
    && t.results == s.results[i := s.results[i] + AddedBy(app.options[i], s.args[..k])]
    && t.order == s.order + seq(k, _ => i)
    && t.missing == s.missing
  }

  lemma TookNone(app: App, s: State, i: nat)
    requires Of(app, s) && i < |app.options|
    ensures TookFirst(app, s, s, i, 0)
  {
    assert s.args[..0] == [] && s.results[i] + [] == s.results[i];
  }

  lemma TookOneMore(app: App, s: State, t: State, i: nat, k: nat)
    requires Of(app, s) && i < |app.options| && s.args != [] && TookFirst(app, Eat(app, s, i), t, i, k)
    ensures TookFirst(app, s, t, i, k + 1)
    ensures AddedBy(app.options[i], s.args[..k + 1]) == app.options[i].added(s.args[0]) + AddedBy(app.options[i], s.args[1..][..k])
  {
    var o, rest := app.options[i], s.args[1..][..k];
    assert s.args[..k + 1] == [s.args[0]] + rest;
    assert s.results[i] + o.added(s.args[0]) + AddedBy(o, rest) == s.results[i] + (o.added(s.args[0]) + AddedBy(o, rest));
    assert s.order + [i] + seq(k, _ => i) == s.order + seq(k + 1, _ => i);
  }

  /** An option takes the fewest arguments that give it its minimum, or all there are. */
  lemma {:induction false} GatherMeaning(app: App, s: State, i: nat, count: nat) returns (k: nat)
    requires Of(app, s) && i < |app.options|
    ensures var r, o := Gather(app, s, i, count), app.options[i];
            && TookFirst(app, s, r.state, i, k)
            && r.count == count + |AddedBy(o, s.args[..k])|
            && (r.count >= MinNum(o) || r.state.args == [])
            && forall j :: 0 <= j < k ==> count + |AddedBy(o, s.args[..j])| < MinNum(o)
    decreases |s.args|
  {
    hide TookFirst, MinNum, Eat;
    var o := app.options[i];
    if MinNum(o) > count && s.args != [] {
      var next, more := Eat(app, s, i), count + |o.added(s.args[0])|;
      var m := GatherMeaning(app, next, i, more);
      k := m + 1;
      TookOneMore(app, s, Gather(app, s, i, count).state, i, m);
      forall j | 0 <= j < k
        ensures count + |AddedBy(o, s.args[..j])| < MinNum(o)
      {
        if j > 0 {
          assert s.args[..j][1..] == next.args[..j - 1];
        }
      }
    } else {
      k := 0;
      TookNone(app, s, i);
      assert s.args[..0] == [];
    }
  }

  // Whether argument `j` is taken as an optional one once there are `count` results.
  predicate Takeable(app: App, i: nat, args: seq<string>, j: nat, count: nat, left: nat)
    requires i < |app.options| && j < |args|
  {
    var o := app.options[i];
    && (count < MaxNum(o) || o.extra) && Recognize(app, args[j]).Other?
    && left < |args| - j && (app.validateOptional ==> o.valid(args[j]))
  }

  // The first `k` arguments are taken one after the other, and then no more.
  ghost predicate Stretch(app: App, i: nat, args: seq<string>, count: nat, left: nat, k: nat)
    requires i < |app.options|
  {
    && k <= |args|
    && (forall j :: 0 <= j < k ==> Takeable(app, i, args, j, count + |AddedBy(app.options[i], args[..j])|, left))
    && (k < |args| ==> !Takeable(app, i, args, k, count + |AddedBy(app.options[i], args[..k])|, left))
  }

  lemma TakeableShift(app: App, i: nat, args: seq<string>, j: nat, count: nat, left: nat)
    requires i < |app.options| && 0 < j < |args|
    ensures var more := count + |app.options[i].added(args[0])|;
            Takeable(app, i, args, j, count + |AddedBy(app.options[i], args[..j])|, left)
            <==> Takeable(app, i, args[1..], j - 1, more + |AddedBy(app.options[i], args[1..][..j - 1])|, left)
  {
    hide MaxNum, Recognize;
    assert args[..j][1..] == args[1..][..j - 1] && args[..j][0] == args[0];
    assert args[1..][j - 1] == args[j];
  }

  lemma StretchCons(app: App, i: nat, args: seq<string>, count: nat, left: nat, m: nat)
    requires i < |app.options| && args != [] && Takeable(app, i, args, 0, count, left)
    requires Stretch(app, i, args[1..], count + |app.options[i].added(args[0])|, left, m)
    ensures Stretch(app, i, args, count, left, m + 1)
  {
    hide Takeable, AddedBy;
    var o := app.options[i];
    NothingAdded(o);
    assert args[..0] == [];
    forall j | 0 < j < m + 1
      ensures Takeable(app, i, args, j, count + |AddedBy(o, args[..j])|, left)
    {
      TakeableShift(app, i, args, j, count, left);
    }
    if m + 1 < |args| {
      TakeableShift(app, i, args, m + 1, count, left);
    }
  }

  /** An option goes on to take arguments while there is room for results, the next one is a plain text
      that it accepts, and more arguments are left than the required positionals need; it stops at the
      first one for which that fails. */
  lemma {:induction false} OptionalMeaning(app: App, s: State, i: nat, count: nat, left: nat) returns (k: nat)
    requires Of(app, s) && i < |app.options|
    ensures var r, o := Optional(app, s, i, count, left), app.options[i];
            && TookFirst(app, s, r.state, i, k)
            && r.count == count + |AddedBy(o, s.args[..k])|
            && Stretch(app, i, s.args, count, left, k)
            && (k > 0 ==> |r.state.args| >= left)
    decreases |s.args|
  {
    hide TookFirst, Eat, Stretch, AddedBy, Takeable, Takes;
    NothingAdded(app.options[i]);
    TakesFirst(app, s, i, count, left);
    if Takes(app, s, i, count, left) {
      var next, more := Eat(app, s, i), count + |app.options[i].added(s.args[0])|;
      EatArgs(app, s, i);
      var m := OptionalMeaning(app, next, i, more, left);
      k := m + 1;
      var t := Optional(app, next, i, more, left).state;
      TookOneMore(app, s, t, i, m);
      TookArgs(app, next, t, i, m);
      StretchCons(app, i, s.args, count, left, m);
    } else {
      k := 0;
      TookNone(app, s, i);
      assert s.args[..0] == [];
      StretchNone(app, i, s.args, count, left);
    }
  }

  lemma TakesFirst(app: App, s: State, i: nat, count: nat, left: nat)
    requires i < |app.options|
    ensures Takes(app, s, i, count, left) <==> s.args != [] && Takeable(app, i, s.args, 0, count, left)
    ensures Takes(app, s, i, count, left) ==> left < |s.args|
  {
  }

  lemma StretchNone(app: App, i: nat, args: seq<string>, count: nat, left: nat)
    requires i < |app.options| && (args != [] ==> !Takeable(app, i, args, 0, count, left))
    ensures Stretch(app, i, args, count, left, 0)
  {
    assert args[..0] == [];
  }

  lemma EatArgs(app: App, s: State, i: nat)
    requires Of(app, s) && i < |app.options| && s.args != []
    ensures Eat(app, s, i).args == s.args[1..]
  {
  }

  lemma TookArgs(app: App, s: State, t: State, i: nat, k: nat)
    requires Of(app, s) && i < |app.options| && TookFirst(app, s, t, i, k)
    ensures |t.args| == |s.args| - k
  {
  }

  // ---------------------------------------------------------------- one option as a whole

  // Option `i` has some more results, and nothing else has.
  ghost predicate Appends(s: State, t: State, i: nat, more: seq<string>)
    requires i < |s.results|
  {
    t.results == s.results[i := s.results[i] + more]
  }

  lemma AppendsTwice(s: State, t: State, u: State, i: nat, a: seq<string>, b: seq<string>)
    requires i < |s.results| && Appends(s, t, i, a) && Appends(t, u, i, b)
    ensures Appends(s, u, i, a + b)
  {
    assert s.results[i] + a + b == s.results[i] + (a + b);
  }

  lemma Regroup(a: seq<string>, b: seq<string>, c: seq<string>)
    ensures a + (b + c) == (a + b) + c
  {
  }

  lemma {:induction false} AddedByAppend(o: Opt, a: seq<string>, b: seq<string>)
    ensures AddedBy(o, a + b) == AddedBy(o, a) + AddedBy(o, b)
  {
    if a == [] {
      assert a + b == b;
    } else {
      AddedByAppend(o, a[1..], b);
      assert (a + b)[1..] == a[1..] + b && (a + b)[0] == a[0];
      Regroup(o.added(a[0]), AddedBy(o, a[1..]), AddedBy(o, b));
    }
  }

  // The results that the option's own token adds: of a flag, of "--name=value", or of "-nrest".
  function OwnResults(o: Opt, parts: Parts): seq<string> {
    if MaxNum(o) == 0 then
      match o.flag(parts.name, parts.value)
      case None => []
      case Some(value) => o.added(value)
    else if parts.value != "" then o.added(parts.value)
    else if parts.rest != "" then o.added(parts.rest)
    else []
  }

  // What comes between the results of an earlier use of the option and those of this one.
  function Separation(o: Opt, had: seq<string>): seq<string> {
    if o.separator && had != [] && had[|had| - 1] != "" then o.added("") else []
  }

  lemma OwnMeaning(app: App, s: State, i: nat, parts: Parts)
    requires Of(app, s) && i < |app.options|
    ensures var o, sep := app.options[i], AddSeparator(app, s, i);
            var own := TakeOwn(app, sep, i, parts);
            && (own.Refused? <==> MaxNum(o) == 0 && o.flag(parts.name, parts.value).None?)
            && (own.Took? ==>
                && Appends(s, own.state, i, Separation(o, s.results[i]) + OwnResults(o, parts))
                && own.state.args == s.args
                && own.count == (if MaxNum(o) == 0 then 0 else |OwnResults(o, parts)|)
                && own.rest == (if MaxNum(o) == 0 then parts.rest
                                else if parts.value != "" then parts.rest else ""))
  {
    hide MaxNum;
    var sep := AddSeparator(app, s, i);
    SeparatorAppends(app, s, i);
    var own := TakeOwn(app, sep, i, parts);
    if own.Took? {
      assert sep.results[i] + [] == sep.results[i];
      assert Appends(sep, own.state, i, OwnResults(app.options[i], parts));
      AppendsTwice(s, sep, own.state, i, Separation(app.options[i], s.results[i]), OwnResults(app.options[i], parts));
    }
  }

  lemma SeparatorAppends(app: App, s: State, i: nat)
    requires Of(app, s) && i < |app.options|
    ensures Appends(s, AddSeparator(app, s, i), i, Separation(app.options[i], s.results[i]))
  {
    assert s.results[i] + [] == s.results[i];
  }

  // The value of an option that takes arguments but got none.
  function Default(o: Opt, name: string, count: nat): seq<string> {
    if MinNum(o) == 0 && MaxNum(o) > 0 && count == 0 && o.flag(name, "").Some? then o.added(o.flag(name, "").value) else []
  }

  // The arguments behind the first `k`, without a "--" that ends those of an option that may have more.
  ghost predicate Behind(rest: seq<string>, args: seq<string>, k: nat, more: bool) {
    k <= |args| && rest == if more && k < |args| && args[k] == "--" then args[k + 1..] else args[k..]
  }

  // Whether an option may have more than these results.
  predicate MayHaveMore(o: Opt, count: nat) {
    MaxNum(o) > count || o.extra
  }

  lemma MoreMeaning(app: App, s: State, i: nat, name: string, count: nat) returns (k: nat)
    requires Of(app, s) && i < |app.options| && TakeMore(app, s, i, name, count).Some?
    ensures var o, m := app.options[i], TakeMore(app, s, i, name, count).value;
            && Behind(m.state.args, s.args, k, MayHaveMore(o, count))
            && (!MayHaveMore(o, count) ==> k == 0)
            && m.count == count + |AddedBy(o, s.args[..k])|
            && Appends(s, m.state, i, AddedBy(o, s.args[..k]) + Default(o, name, m.count))
            && (k > 0 ==> |s.args| - k >= RequiredLeft(app, s.results, |app.options|))
  {
    hide MaxNum, MinNum, Optional, RequiredLeft, AddedBy, Recognize, Takeable, Stretch;
    var o := app.options[i];
    k := 0;
    if MaxNum(o) > count || o.extra {
      var left := RequiredLeft(app, s.results, |app.options|);
      k := OptionalMeaning(app, s, i, count, left);
      var c := Optional(app, s, i, count, left);
      DefaultMeaning(app, s, c.state, i, name, c.count, k);
    } else {
      NothingAdded(o);
      assert s.args[..0] == [] && s.args[0..] == s.args;
      assert s.results[i] + ([] + []) == s.results[i];
    }
  }

  // The last two steps of `TakeMore`, once `k` arguments are taken.
  lemma DefaultMeaning(app: App, s: State, t: State, i: nat, name: string, count: nat, k: nat)
    requires Of(app, s) && Of(app, t) && i < |app.options| && TookFirst(app, s, t, i, k)
    requires MinNum(app.options[i]) == 0 && MaxNum(app.options[i]) > 0 && count == 0 ==> app.options[i].flag(name, "").Some?
    ensures var o := app.options[i];
            var ended := PopMark(app, t);
            var value := o.flag(name, "");
            var u := if MinNum(o) == 0 && MaxNum(o) > 0 && count == 0 then Ordered(Add(app, ended, i, value.value), i) else ended;
            && Behind(u.args, s.args, k, true)
            && Appends(s, u, i, AddedBy(o, s.args[..k]) + Default(o, name, count))
  {
    hide MaxNum, MinNum, AddedBy;
    var o := app.options[i];
    var more := AddedBy(o, s.args[..k]);
    MarkIsDashes(app, t.args);
    assert more + [] == more;
    assert t.args == s.args[k..] && (t.args != [] ==> t.args[0] == s.args[k] && t.args[1..] == s.args[k + 1..]);
    assert s.results[i] + more + Default(o, name, count) == s.results[i] + (more + Default(o, name, count));
  }

  lemma NothingAdded(o: Opt)
    ensures AddedBy(o, []) == []
  {
  }

  lemma MarkIsDashes(app: App, args: seq<string>)
    ensures args != [] ==> (Recognize(app, args[0]).Mark? <==> args[0] == "--")
  {
  }

  // What fills up a type that only got some of its results.
  function Fill(o: Opt, count: nat): seq<string>
    requires o.typeMin <= o.typeMax
  {
    if MinNum(o) > 0 && count % o.typeMax != 0 then o.added("") else []
  }

  function OwnCount(o: Opt, parts: Parts): nat {
    if MaxNum(o) == 0 then 0 else |OwnResults(o, parts)|
  }

  function OwnRest(o: Opt, parts: Parts): string {
    if MaxNum(o) == 0 || parts.value != "" then parts.rest else ""
  }

  /** What an option does with a command line: behind its earlier results it gets those of its own token,
      then those of the next arguments in order, at least its minimum, then a default value or a filler
      where it lacks one; no other option gets anything, and what it leaves of the line is the rest
      behind these arguments, with the remainder of its own token in front. */
  lemma ParseOptionMeaning(app: App, s: State, i: nat, parts: Parts) returns (j: nat, k: nat)
    requires WellFormed(app) && Of(app, s) && i < |app.options| && ParseOption(app, s, i, parts).Parsed?
    ensures j <= k <= |s.args| && GathersFirst(app.options[i], OwnCount(app.options[i], parts), s.args, j)
    ensures var o, t := app.options[i], ParseOption(app, s, i, parts).state;
            var n, rest := OwnCount(o, parts) + |AddedBy(o, s.args[..k])|, OwnRest(o, parts);
            var more := MayHaveMore(o, OwnCount(o, parts) + |AddedBy(o, s.args[..j])|);
            && n >= MinNum(o) && (!more ==> k == j)
            && (MinNum(o) > 0 && o.typeMin == o.typeMax ==> n % o.typeMax == 0)
            && Appends(s, t, i, Separation(o, s.results[i]) + OwnResults(o, parts) + AddedBy(o, s.args[..k])
                                + Default(o, parts.name, n) + Fill(o, n))
            && (if rest == "" then Behind(t.args, s.args, k, more)
                else t.args != [] && t.args[0] == "-" + rest && Behind(t.args[1..], s.args, k, more))
  {
    hide MaxNum, MinNum, Gather, TakeMore, TakeOwn, AddSeparator, AddedBy, OwnResults, Default, Separation, Behind,
      GathersFirst, MayHaveMore;
    var o := app.options[i];
    OwnMeaning(app, s, i, parts);
    var own := TakeOwn(app, AddSeparator(app, s, i), i, parts);
    var g := Gather(app, own.state, i, own.count);
    var u := TakeMore(app, g.state, i, parts.name, g.count).value;
    j, k := TakenMeaning(app, s, own.state, i, parts, own.count);
    FillMeaning(app, s, u, i, Separation(o, s.results[i]) + OwnResults(o, parts) + AddedBy(o, s.args[..k])
                              + Default(o, parts.name, u.count), OwnRest(o, parts), k,
                MayHaveMore(o, own.count + |AddedBy(o, s.args[..j])|));
  }

  // The fewest arguments that bring the results to the option's minimum.
  ghost predicate GathersFirst(o: Opt, count: nat, args: seq<string>, j: nat) {
    && j <= |args| && count + |AddedBy(o, args[..j])| >= MinNum(o)
    && forall i :: 0 <= i < j ==> count + |AddedBy(o, args[..i])| < MinNum(o)
  }

  // From the option's own token to the last argument it takes.
  lemma TakenMeaning(app: App, s: State, own: State, i: nat, parts: Parts, count: nat)
    returns (j: nat, k: nat)
    requires Of(app, s) && Of(app, own) && i < |app.options| && own.args == s.args
    requires Appends(s, own, i, Separation(app.options[i], s.results[i]) + OwnResults(app.options[i], parts))
    requires Gather(app, own, i, count).count >= MinNum(app.options[i])
    requires var g := Gather(app, own, i, count); TakeMore(app, g.state, i, parts.name, g.count).Some?
    ensures j <= k <= |s.args| && GathersFirst(app.options[i], count, s.args, j)
    ensures var o, g := app.options[i], Gather(app, own, i, count);
            var more := MayHaveMore(o, count + |AddedBy(o, s.args[..j])|);
            var u := TakeMore(app, g.state, i, parts.name, g.count).value;
            && u.count == count + |AddedBy(o, s.args[..k])| && u.count >= MinNum(o)
            && Behind(u.state.args, s.args, k, more) && (!more ==> k == j)
            && Appends(s, u.state, i, Separation(o, s.results[i]) + OwnResults(o, parts) + AddedBy(o, s.args[..k])
                                      + Default(o, parts.name, u.count))
  {
    hide MaxNum, MinNum, Gather, TakeMore, AddedBy, OwnResults, Default, Separation, TookFirst, Appends, GathersFirst,
      MayHaveMore;
    var o := app.options[i];
    j := GatherMeaning(app, own, i, count);
    var g := Gather(app, own, i, count);
    TookAppends(app, own, g.state, i, j);
    GathersSame(o, count, own.args, j, g);
    var m := MoreMeaning(app, g.state, i, parts.name, g.count);
    var u := TakeMore(app, g.state, i, parts.name, g.count).value;
    k := j + m;
    TookThenMore(app, s, own, g.state, i, j, m, u.state.args, MayHaveMore(o, g.count));
    hide Behind;
    AddedByAppend(o, s.args[..j], s.args[j..][..m]);
    var head := Separation(o, s.results[i]) + OwnResults(o, parts);
    var first, second, last := AddedBy(o, s.args[..j]), AddedBy(o, s.args[j..][..m]), Default(o, parts.name, u.count);
    AppendsThrice(s, own, g.state, u.state, i, head, first, second, last);
  }

  lemma GathersSame(o: Opt, count: nat, args: seq<string>, j: nat, g: Collected)
    requires j <= |args| && g.count == count + |AddedBy(o, args[..j])| && g.count >= MinNum(o)
    requires forall i :: 0 <= i < j ==> count + |AddedBy(o, args[..i])| < MinNum(o)
    ensures GathersFirst(o, count, args, j)
  {
  }

  lemma TookAppends(app: App, s: State, t: State, i: nat, k: nat)
    requires Of(app, s) && i < |app.options| && TookFirst(app, s, t, i, k)
    ensures k <= |s.args| && Appends(s, t, i, AddedBy(app.options[i], s.args[..k]))
  {
  }

  lemma AppendsThrice(s: State, own: State, g: State, u: State, i: nat, head: seq<string>,
                      first: seq<string>, second: seq<string>, last: seq<string>)
    requires i < |s.results| && Appends(s, own, i, head) && Appends(own, g, i, first) && Appends(g, u, i, second + last)
    ensures Appends(s, u, i, head + (first + second) + last)
  {
    AppendsTwice(s, own, g, i, head, first);
    AppendsTwice(s, g, u, i, head + first, second + last);
    assert head + first + (second + last) == head + (first + second) + last;
  }

  lemma TookThenMore(app: App, s: State, own: State, g: State, i: nat, j: nat, m: nat, rest: seq<string>,
                     more: bool)
    requires Of(app, own) && i < |app.options| && own.args == s.args && TookFirst(app, own, g, i, j)
    requires Behind(rest, g.args, m, more)
    ensures g.args == s.args[j..] && j + m <= |s.args| && Behind(rest, s.args, j + m, more)
    ensures s.args[..j + m] == s.args[..j] + s.args[j..][..m]
  {
    assert g.args == s.args[j..];
    assert s.args[j..][m..] == s.args[j + m..];
    if m < |g.args| {
      assert s.args[j..][m + 1..] == s.args[j + m + 1..];
    }
  }

  // The last two steps of `ParseOption`.
  lemma FillMeaning(app: App, s: State, u: Collected, i: nat, more: seq<string>, rest: string, k: nat,
                    room: bool)
    requires WellFormed(app) && Of(app, s) && Of(app, u.state) && i < |app.options|
    requires Appends(s, u.state, i, more) && Behind(u.state.args, s.args, k, room)
    ensures var o := app.options[i];
            var t := PushBack(if Incomplete(o, u.count) then Add(app, u.state, i, "") else u.state, rest);
            && Appends(s, t, i, more + Fill(o, u.count))
            && (if rest == "" then Behind(t.args, s.args, k, room)
                else t.args != [] && t.args[0] == "-" + rest && Behind(t.args[1..], s.args, k, room))
  {
    hide MinNum, Behind;
    assert more + [] == more && (["-" + rest] + u.state.args)[1..] == u.state.args;
    assert s.results[i] + more + Fill(app.options[i], u.count) == s.results[i] + (more + Fill(app.options[i], u.count));
  }

  lemma GatherStep(app: App, s: State, i: nat, count: nat)
    requires Of(app, s) && i < |app.options|
    ensures Gather(app, s, i, count)
            == if MinNum(app.options[i]) > count && s.args != []
               then Gather(app, Eat(app, s, i), i, count + |app.options[i].added(s.args[0])|)
               else Collected(s, count)
  {
    hide MinNum, Eat;
  }

  lemma OptionalStep(app: App, s: State, i: nat, count: nat, left: nat)
    requires Of(app, s) && i < |app.options|
    ensures Optional(app, s, i, count, left)
            == if Takes(app, s, i, count, left)
               then Optional(app, Eat(app, s, i), i, count + |app.options[i].added(s.args[0])|, left)
               else Collected(s, count)
  {
    hide Takes, Eat;
  }

  lemma SomeType(app: App, i: nat)
    requires WellFormed(app) && i < |app.options| && MinNum(app.options[i]) > 0
    ensures app.options[i].typeMax > 0
  {
  }

  // ---------------------------------------------------------------- the parser

  // What a call that may throw leaves: the state of the specification, or its failure.
  ghost predicate Ends(o: Outcome, failure: Option<Failure>, s: State) {
    match o
    case Thrown(why) => failure == Some(why)
    case Parsed(t) => failure == None && s == t
  }

  class Parser {
    const app: App
    var args: seq<string>
    var positionalOnly: bool
    var missing: seq<Missing>
    var results: seq<seq<string>>
    var order: seq<nat>

    ghost function View(): State
      reads this
    {
      State(args, positionalOnly, missing, results, order)
    }

    ghost predicate Valid()
      reads this
    {
      WellFormed(app) && Of(app, View())
    }

    constructor (app: App, line: seq<string>)
      requires WellFormed(app)
      ensures Valid() && this.app == app && View() == Start(app, line)
    {
      this.app := app;
      args, positionalOnly, missing, results, order := line, false, [], seq(|app.options|, i => []), [];
    }

    method AddResult(i: nat, text: string)
      requires Valid() && i < |app.options|
      modifies this`results
      ensures View() == Add(app, old(View()), i, text)
    {
      results := results[i := results[i] + app.options[i].added(text)];
    }

    method AddOrdered(i: nat, text: string)
      requires Valid() && i < |app.options|
      modifies this`results, this`order
      ensures View() == Ordered(Add(app, old(View()), i, text), i)
    {
      AddResult(i, text);
      order := order + [i];
    }

    method InjectSeparator(i: nat)
      requires Valid() && i < |app.options|
      modifies this`results
      ensures View() == AddSeparator(app, old(View()), i)
    {
      if app.options[i].separator && results[i] != [] && results[i][|results[i]| - 1] != "" {
        AddResult(i, "");
      }
    }

    method EatOne(i: nat)
      requires Valid() && i < |app.options| && args != []
      modifies this`results, this`order, this`args
      ensures View() == Eat(app, old(View()), i)
    {
      AddResult(i, args[0]);
      order := order + [i];
      args := args[1..];
    }

    method GatherMinimum(i: nat, count: nat) returns (collected: nat)
      requires Valid() && i < |app.options|
      modifies this`results, this`order, this`args
      ensures Collected(View(), collected) == Gather(app, old(View()), i, count)
    {
      hide Gather, MinNum;
      collected := count;
      while MinNum(app.options[i]) > collected && args != []
        invariant Valid() && missing == old(missing) && positionalOnly == old(positionalOnly)
        invariant Gather(app, View(), i, collected) == Gather(app, old(View()), i, count)
        decreases |args|
      {
        GatherStep(app, View(), i, collected);
        var n := |app.options[i].added(args[0])|;
        EatOne(i);
        collected := collected + n;
      }
      GatherStep(app, View(), i, collected);
    }

    method GatherOptional(i: nat, count: nat, left: nat) returns (collected: nat)
      requires Valid() && i < |app.options|
      modifies this`results, this`order, this`args
      ensures Collected(View(), collected) == Optional(app, old(View()), i, count, left)
    {
      hide Recognize, Optional, MaxNum;
      var o := app.options[i];
      collected := count;
      while (collected < MaxNum(o) || o.extra) && args != [] && Recognize(app, args[0]).Other?
        invariant Valid() && missing == old(missing) && positionalOnly == old(positionalOnly)
        invariant Optional(app, View(), i, collected, left) == Optional(app, old(View()), i, count, left)
        decreases |args|
      {
        OptionalStep(app, View(), i, collected, left);
        if left >= |args| || (app.validateOptional && !o.valid(args[0])) {
          break;
        }
        var n := |o.added(args[0])|;
        EatOne(i);
        collected := collected + n;
      }
      OptionalStep(app, View(), i, collected, left);
    }

    // The value or the rest of the option's own token
    method TakeOwnResult(i: nat, parts: Parts) returns (failure: Option<Failure>, collected: nat, rest: string)
      requires Valid() && i < |app.options|
      modifies this`results, this`order
      ensures match TakeOwn(app, old(View()), i, parts)
              case Refused => failure == Some(FlagOverride)
              case Took(t, count, left) => failure == None && View() == t && collected == count && rest == left
    {
      hide MaxNum;
      var o := app.options[i];
      failure, collected, rest := None, 0, parts.rest;
      if MaxNum(o) == 0 {
        var value := o.flag(parts.name, parts.value);
        if value.None? {
          return Some(FlagOverride), 0, rest;
        }
        AddOrdered(i, value.value);
      } else if parts.value != "" {
        AddOrdered(i, parts.value);
        collected := |o.added(parts.value)|;
      } else if rest != "" {
        AddOrdered(i, rest);
        collected := |o.added(rest)|;
        rest := "";
      }
    }

    // Allow "--" to end them.
    method EndMark()
      requires Valid()
      modifies this`args
      ensures View() == PopMark(app, old(View()))
    {
      hide Recognize;
      if args != [] && Recognize(app, args[0]).Mark? {
        args := args[1..];
      }
    }

    // The optional arguments
    method TakeMoreArgs(i: nat, name: string, count: nat) returns (failure: Option<Failure>, collected: nat)
      requires Valid() && i < |app.options|
      modifies this`results, this`order, this`args
      ensures match TakeMore(app, old(View()), i, name, count)
              case None => failure == Some(FlagOverride)
              case Some(c) => failure == None && Collected(View(), collected) == c
    {
      hide Recognize, Optional, MinNum, MaxNum, RequiredLeft, PopMark, Add, Ordered, Tail;
      var o := app.options[i];
      failure, collected := None, count;
      if MaxNum(o) > collected || o.extra {
        collected := GatherOptional(i, collected, RequiredLeft(app, results, |app.options|));
        EndMark();
        if MinNum(o) == 0 && MaxNum(o) > 0 && collected == 0 {
          var value := o.flag(name, "");
          if value.None? {
            return Some(FlagOverride), 0;
          }
          AddOrdered(i, value.value);
        }
      }
    }

    /** `_parse_arg`, once the option is known */
    method ParseOptionArgs(i: nat, parts: Parts) returns (failure: Option<Failure>)
      requires Valid() && i < |app.options|
      modifies this`results, this`order, this`args
      ensures Ends(ParseOption(app, old(View()), i, parts), failure, View())
    {
      hide Recognize, Gather, TakeMore, TakeOwn, AddSeparator, MinNum;
      var o := app.options[i];
      InjectSeparator(i);
      var collected: nat, rest: string;
      failure, collected, rest := TakeOwnResult(i, parts);
      if failure.Some? {
        return;
      }
      collected := GatherMinimum(i, collected);
      if MinNum(o) > collected {
        return Some(TooFew);
      }
      failure, collected := TakeMoreArgs(i, parts.name, collected);
      if failure.Some? {
        return;
      }
      if MinNum(o) > 0 {
        SomeType(app, i);
        if collected % o.typeMax != 0 {
          if o.typeMax == o.typeMin {
            return Some(Partial);
          }
          AddResult(i, "");
        }
      }
      if rest != "" {
        args := ["-" + rest] + args;
      }
    }

    /** `_parse_arg` */
    method ParseOne(kind: Class) returns (failure: Option<Failure>)
      requires Valid() && args != []
      modifies this`results, this`order, this`args, this`missing
      ensures Ends(ParseArg(app, old(View()), kind), failure, View())
    {
      hide ParseOption, SplitAs;
      var current := args[0];
      var parts := SplitAs(kind, current);
      if parts.None? {
        return Some(Horrible);
      }
      args := args[1..];
      var op := FindOption(app, kind, parts.value.name, 0);
      if op.None? {
        missing := missing + [Missing(kind, current)];
        return None;
      }
      failure := ParseOptionArgs(op.value, parts.value);
    }

    /** `_parse_positional` */
    method ParsePositionalArg() returns (failure: Option<Failure>)
      requires Valid() && args != []
      modifies this`results, this`order, this`args, this`missing
      ensures Ends(ParsePositional(app, old(View())), failure, View())
    {
      hide ChoosePositional;
      var i := ChoosePositional(app, State(args, positionalOnly, missing, results, order));
      if i.Some? {
        InjectSeparator(i.value);
        EatOne(i.value);
        return None;
      }
      if app.positionalsAtEnd {
        return Some(Extras);
      }
      missing := missing + [Missing(Other, args[0])];
      args := args[1..];
      if app.prefixCommand {
        while args != []
          invariant results == old(results) && order == old(order)
          invariant missing + AllMissing(args) == old(missing) + [Missing(Other, old(args)[0])] + AllMissing(old(args)[1..])
          decreases |args|
        {
          AllMissingCons(missing, args);
          missing := missing + [Missing(Other, args[0])];
          args := args[1..];
        }
        assert missing + [] == missing;
      }
      failure := None;
    }

    /** `_parse_single` */
    method ParseNext() returns (failure: Option<Failure>)
      requires Valid() && args != []
      modifies this
      ensures Ends(ParseSingle(app, old(View())), failure, View())
    {
      hide ParseArg, ParsePositional, Recognize;
      var kind := if positionalOnly then Other else Recognize(app, args[0]);
      match kind
      case Mark =>
        args, positionalOnly := args[1..], true;
        missing := missing + [Missing(Mark, "--")];
        failure := None;
      case Other =>
        failure := ParsePositionalArg();
        if failure.None? && app.positionalsAtEnd {
          positionalOnly := true;
        }
      case _ =>
        failure := ParseOne(kind);
    }

    /** `_parse`: the loop ends for every command line, as `Measure` of what is left goes down. */
    method Parse() returns (failure: Option<Failure>)
      requires Valid()
      modifies this
      ensures Ends(ParseAll(app, old(View())), failure, View())
    {
      hide ParseSingle;
      while args != []
        invariant Valid()
        invariant ParseAll(app, View()) == ParseAll(app, old(View()))
        decreases Measure(args)
      {
        ParseSingleProgress(app, View());
        failure := ParseNext();
        if failure.Some? {
          return;
        }
      }
      failure := None;
    }
  }
}
