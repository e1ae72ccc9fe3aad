/** What the parsing of external/CLI/CLI11.hpp means for the tokens a user types. */
module CliMeaning {
  import opened Options
  import opened Text
  import opened CliParsing
  import CheckedMultiply

  // ---------------------------------------------------------------- spelling an option

  // The first character of a name.
  predicate Starts(c: char) {
    c !in {'-', '!', ' ', '\n'}
  }

  predicate LongName(name: string) {
    name != "" && Starts(name[0]) && Free(name, '=')
  }

  /** "--name=value" and "--name" are read as that name and that value, and so is "--=value" with no name. */
  lemma LongParts(name: string, value: string)
    requires LongName(name) || name == ""
    ensures SplitLong("--" + name + "=" + value) == Some(Parts(name, value, ""))
    ensures name != "" ==> SplitLong("--" + name) == Some(Parts(name, "", ""))
  {
    FindFromChar("--", name, '=', value);
    hide Find, At;
    var s := "--" + name + "=" + value;
    assert s[..2] == "--" && s[2] == (if name == "" then '=' else name[0]);
    assert s[2..2 + |name|] == name && s[2 + |name| + 1..] == value;
    assert ("--" + name)[..2] == "--" && ("--" + name)[2..] == name;
  }

  lemma FindFromChar(a: string, b: string, c: char, rest: string)
    requires Free(b, c)
    ensures Find(a + b + [c] + rest, [c], |a|) == |a| + |b|
    ensures Find(a + b, [c], |a|) > |a + b|
  {
    var s := a + b + [c] + rest;
    FindChar(b, c, rest);
    FindInRest(s, [c], |a|);
    assert s[|a|..] == b + [c] + rest;
    FindInRest(a + b, [c], |a|);
    assert (a + b)[|a|..] == b;
  }

  /** "-nrest" is read as the one-letter name and the rest. */
  lemma ShortParts(name: char, rest: string)
    requires Starts(name)
    ensures SplitShort("-" + [name] + rest) == Some(Parts([name], "", rest))
  {
    var s := "-" + [name] + rest;
    assert s[1..2] == [name] && s[2..] == rest;
  }

  /** "/name:value" and "/name" are read like the long forms. */
  lemma WindowsParts(name: string, value: string)
    requires (name != "" ==> Starts(name[0])) && Free(name, ':')
    ensures SplitWindows("/" + name + ":" + value) == Some(Parts(name, value, ""))
    ensures name != "" ==> SplitWindows("/" + name) == Some(Parts(name, "", ""))
  {
    FindFromChar("/", name, ':', value);
    hide Find, At;
    var s := "/" + name + ":" + value;
    assert s[1] == (if name == "" then ':' else name[0]) && s[1..1 + |name|] == name && s[1 + |name| + 1..] == value;
    assert ("/" + name)[1..] == name;
  }

  /** Which of these forms a token has; a short name that is a digit needs an option of that name, and
      everything else is plain. */
  lemma Recognized(app: App, s: string)
    ensures Recognize(app, s).Mark? <==> s == "--"
    ensures Recognize(app, s).Long? <==> |s| > 2 && s[0] == '-' && s[1] == '-' && Starts(s[2])
    ensures Recognize(app, s).Short? <==>
            && |s| > 1 && s[0] == '-' && Starts(s[1])
            && ('0' <= s[1] <= '9' ==> exists i :: 0 <= i < |app.options| && [s[1]] in app.options[i].shorts)
    ensures Recognize(app, s).Windows? <==> app.windowsStyle && |s| > 1 && s[0] == '/' && Starts(s[1])
  {
    if |s| > 1 {
      assert s[..2] == [s[0], s[1]] && s[1..2] == [s[1]];
    }
    hide Find, At;
  }

  // ---------------------------------------------------------------- how many

  /** How many results an option wants at least: one type's worth, unless it expects none; and at most: the
      product of its sizes, or 2^29 where that does not fit; an option that takes no extra arguments and
      would get at least 2^25 is held to its least number of uses. */
  lemma CountsMeaning(o: Opt)
    ensures MinNum(o) == if o.expectedMin == 0 then 0 else o.typeMin
    ensures o.typeMax * o.expectedMax < 0x200_0000 ==> MaxNum(o) == o.typeMax * o.expectedMax
    ensures o.extra && o.typeMax * o.expectedMax <= 0x7fff_ffff ==> MaxNum(o) == o.typeMax * o.expectedMax
    ensures o.extra && o.typeMax * o.expectedMax > 0x7fff_ffff ==> MaxNum(o) == 0x2000_0000
    ensures !o.extra && o.typeMax * o.expectedMax >= 0x200_0000 ==>
              MaxNum(o) == if o.typeMax * o.expectedMin <= 0x7fff_ffff then o.typeMax * o.expectedMin else 0x2000_0000
  {
    IntMax();
    if o.expectedMin > 0 {
      AtLeastOnce(o.typeMin, o.expectedMin);
    }
  }

  lemma AtLeastOnce(a: nat, b: nat)
    requires b > 0
    ensures a <= a * b
  {
  }

  lemma IntMax()
    ensures CheckedMultiply.Highest(CheckedMultiply.INT) == 0x7fff_ffff
  {
    assert CheckedMultiply.Power(8) == 256;
    assert CheckedMultiply.Power(16) == 65536;
    assert CheckedMultiply.Power(24) == 0x100_0000;
    assert CheckedMultiply.Power(31) == 0x8000_0000;
  }

  // What a positional lacks of its minimum, if it is required.
  function Lack(o: Opt, count: nat): nat {
    if o.positional && o.required && count < o.typeMin * o.expectedMin then o.typeMin * o.expectedMin - count else 0
  }

  /** What the required positionals lack together: nothing exactly if none lacks anything, and otherwise as
      much as each change of one option's results takes away. */
  lemma {:induction false} RequiredLeftMeaning(app: App, results: seq<seq<string>>, n: nat, i: nat, more: seq<string>)
    requires n <= |app.options| == |results| && i < |results|
    ensures RequiredLeft(app, results, n) == 0 <==> forall k :: 0 <= k < n ==> Lack(app.options[k], |results[k]|) == 0
    ensures RequiredLeft(app, results[i := more], n) + (if i < n then Lack(app.options[i], |results[i]|) else 0)
            == RequiredLeft(app, results, n) + if i < n then Lack(app.options[i], |more|) else 0
  {
    if n > 0 {
      RequiredLeftMeaning(app, results, n - 1, i, more);
      hide RequiredLeft, Lack;
      LeftNext(app, results, n);
      LeftNext(app, results[i := more], n);
    }
  }

  lemma LeftNext(app: App, results: seq<seq<string>>, n: nat)
    requires 0 < n <= |app.options| == |results|
    ensures RequiredLeft(app, results, n)
            == RequiredLeft(app, results, n - 1) + Lack(app.options[n - 1], |results[n - 1]|)
  {
  }

  // ---------------------------------------------------------------- positionals

  // Whether option `i` is a positional that accepts the token and, if `must`, is required and lacks
  // results; otherwise one that lacks results or takes extra ones.
  predicate Accepts(app: App, s: State, i: nat, must: bool)
    requires Of(app, s) && i < |app.options| && s.args != []
  {
    var o, lacks := app.options[i], |s.results[i]| < app.options[i].typeMin * app.options[i].expectedMin;
    && o.positional && (!app.validatePositionals || o.valid(s.args[0]))
    && if must then o.required && lacks else lacks || o.extra
  }

  ghost predicate FirstAccepting(app: App, s: State, i: nat, must: bool)
    requires Of(app, s) && s.args != []
  {
    i < |app.options| && Accepts(app, s, i, must) && forall k :: 0 <= k < i ==> !Accepts(app, s, k, must)
  }

  // Whether the required positionals need all that is left of the line.
  predicate Urgent(app: App, s: State)
    requires Of(app, s)
  {
    app.positionalsAtEnd && |s.args| <= RequiredLeft(app, s.results, |app.options|)
  }

  // The token goes to option `i`, behind a separator if it takes one, and nowhere else.
  ghost predicate GoesTo(app: App, s: State, t: State, i: nat)
    requires Of(app, s) && i < |app.options| && s.args != []
  {
    && t.args == s.args[1..] && t.missing == s.missing
    && Appends(s, t, i, Separation(app.options[i], s.results[i]) + app.options[i].added(s.args[0]))
    && t.order == s.order + [i] && t.positionalOnly == s.positionalOnly
  }

  lemma WantsIsAccepts(app: App, s: State, i: nat, must: bool)
    requires Of(app, s) && i < |app.options| && s.args != []
    ensures Wants(app, s, i, must) <==> Accepts(app, s, i, must)
  {
  }

  /** A plain token goes to the first required positional that lacks results, if the required ones need all
      that is left; else to the first positional with room for it; else it is refused, if positionals come at
      the end, or is missing, alone or with all that follows. */
  lemma PositionalMeaning(app: App, s: State)
    requires Of(app, s) && s.args != []
    ensures forall i :: Urgent(app, s) && FirstAccepting(app, s, i, true) ==>
              ParsePositional(app, s).Parsed? && GoesTo(app, s, ParsePositional(app, s).state, i)
    ensures (Urgent(app, s) ==> forall i :: 0 <= i < |app.options| ==> !Accepts(app, s, i, true)) ==>
              forall i :: FirstAccepting(app, s, i, false) ==>
                ParsePositional(app, s).Parsed? && GoesTo(app, s, ParsePositional(app, s).state, i)
    ensures (forall i :: 0 <= i < |app.options| ==> !Accepts(app, s, i, false)) ==>
              ParsePositional(app, s)
              == if app.positionalsAtEnd then Thrown(Extras)
                 else if app.prefixCommand then Parsed(s.(args := [], missing := s.missing + AllMissing(s.args)))
                 else Parsed(s.(args := s.args[1..], missing := s.missing + [Missing(Other, s.args[0])]))
  {
    forall i: nat, must | i < |app.options|
      ensures Wants(app, s, i, must) <==> Accepts(app, s, i, must)
    {
      WantsIsAccepts(app, s, i, must);
    }
    AcceptsMore(app, s);
    AllMissingCons(s.missing, s.args);
    forall i: nat | i < |app.options|
      ensures GoesTo(app, s, Eat(app, AddSeparator(app, s, i), i), i)
    {
      EatGoes(app, s, i);
    }
    hide Wants, Accepts, GoesTo, AddSeparator, Eat, RequiredLeft;
  }

  lemma AcceptsMore(app: App, s: State)
    requires Of(app, s) && s.args != []
    ensures forall i :: 0 <= i < |app.options| && Accepts(app, s, i, true) ==> Accepts(app, s, i, false)
  {
  }

  lemma EatGoes(app: App, s: State, i: nat)
    requires Of(app, s) && i < |app.options| && s.args != []
    ensures GoesTo(app, s, Eat(app, AddSeparator(app, s, i), i), i)
  {
    SeparatorAppends(app, s, i);
    var sep := AddSeparator(app, s, i);
    assert Appends(sep, Eat(app, sep, i), i, app.options[i].added(s.args[0]));
    AppendsTwice(s, sep, Eat(app, sep, i), i, Separation(app.options[i], s.results[i]), app.options[i].added(s.args[0]));
  }

  /** A token is parsed as a positional if it is plain or a "--" went before it; "--" itself is noted as
      missing and makes everything behind it positional. */
  lemma SingleMeaning(app: App, s: State)
    requires WellFormed(app) && Of(app, s) && s.args != []
    ensures s.positionalOnly || Recognize(app, s.args[0]).Other? ==>
              ParseSingle(app, s) == match ParsePositional(app, s)
                                     case Thrown(why) => Thrown(why)
                                     case Parsed(t) => Parsed(t.(positionalOnly := s.positionalOnly || app.positionalsAtEnd))
    ensures !s.positionalOnly && s.args[0] == "--" ==>
              ParseSingle(app, s) == Parsed(s.(args := s.args[1..], positionalOnly := true,
                                               missing := s.missing + [Missing(Mark, "--")]))
    ensures !s.positionalOnly && !Recognize(app, s.args[0]).Other? && s.args[0] != "--" ==>
              ParseSingle(app, s) == ParseArg(app, s, Recognize(app, s.args[0]))
    ensures s.positionalOnly && ParseSingle(app, s).Parsed? ==> ParseSingle(app, s).state.positionalOnly
  {
    hide ChoosePositional, ParseArg;
  }

  // ---------------------------------------------------------------- options

  /** Nothing is asked of an application but that no option's type is larger at least than at most. */
  lemma AnyApp(app: App)
    requires forall i :: 0 <= i < |app.options| ==> app.options[i].typeMin <= app.options[i].typeMax
    ensures WellFormed(app)
  {
  }

  // Whether the option's own token is a flag that may not be set so.
  predicate FlagRefused(o: Opt, parts: Parts) {
    MaxNum(o) == 0 && o.flag(parts.name, parts.value).None?
  }

  // Whether its own results and those of all that is left fall short of the minimum.
  predicate Short(o: Opt, parts: Parts, args: seq<string>) {
    OwnCount(o, parts) + |AddedBy(o, args)| < MinNum(o)
  }

  /** An option is parsed unless its flag is refused or the line is too short for its minimum; apart from
      options without a default value, and from types of several texts that end incomplete. */
  lemma ParseOptionSucceeds(app: App, s: State, i: nat, parts: Parts)
    requires WellFormed(app) && Of(app, s) && i < |app.options|
    ensures var o, r := app.options[i], ParseOption(app, s, i, parts);
            && (FlagRefused(o, parts) ==> r == Thrown(FlagOverride))
            && (!FlagRefused(o, parts) ==> (r == Thrown(TooFew) <==> Short(o, parts, s.args)))
            && (!FlagRefused(o, parts) && !Short(o, parts, s.args) && Plainly(o, parts.name) ==> r.Parsed?)
  {
    hide Gather, MinNum, MaxNum, TakeOwn, AddSeparator, TakeMore;
    var o := app.options[i];
    OwnMeaning(app, s, i, parts);
    var own := TakeOwn(app, AddSeparator(app, s, i), i, parts);
    if own.Took? {
      var g := Gather(app, own.state, i, own.count);
      var k := GatherMeaning(app, own.state, i, own.count);
      assert s.args == s.args[..k] + s.args[k..];
      AddedByAppend(o, s.args[..k], s.args[k..]);
      assert g.state.args == [] ==> s.args[..k] == s.args;
      if Plainly(o, parts.name) {
        MoreSucceeds(app, g.state, i, parts.name, g.count);
      }
    }
  }

  // An option with a default value if it may go without, whose types are always complete or filled up.
  predicate Plainly(o: Opt, name: string) {
    && (MinNum(o) > 0 || o.flag(name, "").Some?)
    && (MinNum(o) == 0 || o.typeMax == 1 || o.typeMax != o.typeMin)
  }

  lemma MoreSucceeds(app: App, s: State, i: nat, name: string, count: nat)
    requires Of(app, s) && i < |app.options|
    requires MinNum(app.options[i]) > 0 || app.options[i].flag(name, "").Some?
    ensures TakeMore(app, s, i, name, count).Some?
  {
    hide MinNum, MaxNum, Optional, RequiredLeft;
  }

  // ---------------------------------------------------------------- a line of options

  // "--name=value" for option `i`.
  datatype Assignment = Assignment(i: nat, name: string, value: string)

  function Token(a: Assignment): string {
    "--" + a.name + "=" + a.value
  }

  // The first option of that long name, to which the value gives all it wants at once.
  ghost predicate Takes1(app: App, a: Assignment) {
    && LongName(a.name) && a.value != "" && a.i < |app.options|
    && a.name in app.options[a.i].longs
    && (forall k :: 0 <= k < a.i ==> a.name !in app.options[k].longs)
    && var o := app.options[a.i];
       var n := |o.added(a.value)|;
       && 0 < MaxNum(o) <= n && MinNum(o) <= n && !o.extra
       && (MinNum(o) > 0 ==> o.typeMin <= o.typeMax && o.typeMax > 0 && n % o.typeMax == 0)
  }

  function Given(app: App, results: seq<seq<string>>, a: Assignment): (r: seq<seq<string>>)
    requires |results| == |app.options| && a.i < |app.options|
    ensures |r| == |app.options|
  {
    var o, had := app.options[a.i], results[a.i];
    results[a.i := had + (if o.separator && had != [] && had[|had| - 1] != "" then o.added("") else []) + o.added(a.value)]
  }

  /** "--name=value" gives the named option the results of the value, and does nothing else. */
  lemma AssignmentParsed(app: App, s: State, a: Assignment)
    requires WellFormed(app) && Of(app, s) && s.args != [] && s.args[0] == Token(a) && !s.positionalOnly && Takes1(app, a)
    ensures ParseSingle(app, s)
            == Parsed(s.(args := s.args[1..], results := Given(app, s.results, a), order := s.order + [a.i]))
  {
    LongParts(a.name, a.value);
    Recognized(app, s.args[0]);
    SingleMeaning(app, s);
    var popped := s.(args := s.args[1..]);
    OptionOf(app, a);
    hide ParseSingle, Recognize, SplitLong, Find, At;
    AssignmentTaken(app, popped, a);
  }

  lemma OptionOf(app: App, a: Assignment)
    requires Takes1(app, a)
    ensures FindOption(app, Long, a.name, 0) == Some(a.i)
  {
  }

  lemma AssignmentTaken(app: App, s: State, a: Assignment)
    requires WellFormed(app) && Of(app, s) && Takes1(app, a)
    ensures ParseOption(app, s, a.i, Parts(a.name, a.value, ""))
            == Parsed(s.(results := Given(app, s.results, a), order := s.order + [a.i]))
  {
    hide MinNum, MaxNum;
    var sep := AddSeparator(app, s, a.i);
    assert sep.results[a.i] == s.results[a.i] + Separation(app.options[a.i], s.results[a.i]) by {
      SeparatorAppends(app, s, a.i);
    }
    assert s.results[a.i] + [] == s.results[a.i];
    var own := TakeOwn(app, sep, a.i, Parts(a.name, a.value, ""));
    assert own.state.results == Given(app, s.results, a);
    assert Gather(app, own.state, a.i, own.count) == Collected(own.state, own.count) by {
      GatherStep(app, own.state, a.i, own.count);
    }
  }

  function GivenAll(app: App, results: seq<seq<string>>, given: seq<Assignment>): seq<seq<string>>
    requires |results| == |app.options| && forall k :: 0 <= k < |given| ==> given[k].i < |app.options|
    decreases |given|
  {
    if given == [] then results else GivenAll(app, Given(app, results, given[0]), given[1..])
  }

  /** A line of such tokens is parsed to the end without anything missing, and every option has the results
      of its values in the order of the line. */
  lemma {:induction false} LineOfOptions(app: App, s: State, line: seq<Assignment>)
    requires WellFormed(app) && Of(app, s) && !s.positionalOnly
    requires forall k :: 0 <= k < |line| ==> Takes1(app, line[k]) && line[k].i < |app.options|
    requires |s.args| == |line| && forall k :: 0 <= k < |line| ==> s.args[k] == Token(line[k])
    ensures ParseAll(app, s).Parsed?
    ensures var t := ParseAll(app, s).state;
            t.args == [] && t.missing == s.missing && t.results == GivenAll(app, s.results, line)
    decreases |line|
  {
    hide Takes1, Given, Token, ParseSingle;
    if line != [] {
      AssignmentParsed(app, s, line[0]);
      var next := ParseSingle(app, s).state;
      assert forall k :: 0 <= k < |line| - 1 ==> next.args[k] == s.args[k + 1] && line[1..][k] == line[k + 1];
      LineOfOptions(app, next, line[1..]);
      ParseSingleProgress(app, s);
    }
  }
}
