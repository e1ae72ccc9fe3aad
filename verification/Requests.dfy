/** From a request target to a callback and its query: http_stream/src/session.cpp. */
module Requests {
  import opened Options
  import opened Text
  import opened Routing

  type Query = map<string, string>

  // ---------------------------------------------------------------- the optional query

  // `emplace`: the first value of a key stays.
  function Emplace(query: Query, key: string, value: string): Query {
    if key in query then query else query[key := value]
  }

  // What one piece between '&' adds; "key=" and "key" add nothing.
  function AddPiece(query: Query, piece: string): Query {
    var parts := Split(piece, "=");
    if |parts| < 2 then query else Emplace(query, parts[0], parts[1])
  }

  function Collect(pieces: seq<string>): Query {
    if pieces == [] then map[]
    else AddPiece(Collect(pieces[..|pieces| - 1]), pieces[|pieces| - 1])
  }

  function ParseQuery(s: string): Query {
    if s == "" then map[] else Collect(Split(s, "&"))
  }

  /** `split_optional_queries` */
  method SplitOptionalQueries(s: string) returns (result: Query)
    ensures result == ParseQuery(s)
  {
    result := map[];
    if s != "" {
      var queries := SplitStringView(s, "&");
      var i := 0;
      while i < |queries|
        invariant 0 <= i <= |queries|
        invariant result == Collect(queries[..i])
      {
        var split := SplitStringView(queries[i], "=");
        assert queries[..i + 1][..i] == queries[..i];
        if |split| >= 2 && split[0] !in result {
          result := result[split[0] := split[1]];
        }
        i := i + 1;
      }
      assert queries[..i] == queries;
    }
  }

  // The first piece that gives a value to the key.
  ghost predicate Gives(pieces: seq<string>, i: nat, key: string, value: string) {
    && i < |pieces| && Keyed(pieces[i], key) && Split(pieces[i], "=")[1] == value
    && forall j: nat :: j < i ==> !Keyed(pieces[j], key)
  }

  predicate Keyed(piece: string, key: string) {
    |Split(piece, "=")| >= 2 && Split(piece, "=")[0] == key
  }

  // The last piece counts if no earlier one has its key.
  lemma GivesLast(pieces: seq<string>, i: nat, key: string, value: string)
    requires i < |pieces|
    ensures var n := |pieces| - 1;
            Gives(pieces, i, key, value) <==>
              if i < n then Gives(pieces[..n], i, key, value)
              else Keyed(pieces[n], key) && Split(pieces[n], "=")[1] == value
                   && forall j: nat :: j < n ==> !Keyed(pieces[..n][j], key)
  {
    hide Split;
    var early := pieces[..|pieces| - 1];
    assert forall j: nat :: j < |early| ==> early[j] == pieces[j];
  }

  lemma {:induction false} CollectKeys(pieces: seq<string>, key: string)
    ensures key in Collect(pieces) <==> exists i: nat :: i < |pieces| && Keyed(pieces[i], key)
  {
    hide Split;
    if pieces != [] {
      var n := |pieces| - 1;
      CollectKeys(pieces[..n], key);
      assert forall i: nat :: i < n ==> pieces[..n][i] == pieces[i];
      assert key in Collect(pieces) <==> key in Collect(pieces[..n]) || Keyed(pieces[n], key);
      if key in Collect(pieces[..n]) {
        var i: nat :| i < n && Keyed(pieces[..n][i], key);
        assert Keyed(pieces[i], key);
      }
    }
  }

  /** A query holds a value for a key if and only if the first piece with that key and something
      behind its '=' says so. */
  lemma {:induction false} CollectKeepsFirst(pieces: seq<string>, key: string, value: string)
    ensures key in Collect(pieces) && Collect(pieces)[key] == value <==> exists i: nat :: Gives(pieces, i, key, value)
  {
    hide Split, Gives;
    if pieces == [] {
      forall i: nat
        ensures !Gives(pieces, i, key, value)
      {
        GivesInside(pieces, i, key, value);
      }
    } else {
      var n := |pieces| - 1;
      var early := pieces[..n];
      CollectKeepsFirst(early, key, value);
      CollectKeys(early, key);
      forall i: nat | i < |pieces|
        ensures Gives(pieces, i, key, value) <==>
          if i < n then Gives(early, i, key, value)
          else Keyed(pieces[n], key) && Split(pieces[n], "=")[1] == value && key !in Collect(early)
      {
        GivesLast(pieces, i, key, value);
      }
      forall i: nat
        ensures Gives(pieces, i, key, value) ==> i < |pieces|
        ensures Gives(early, i, key, value) ==> i < n
      {
        GivesInside(pieces, i, key, value);
        GivesInside(early, i, key, value);
      }
      if key in Collect(early) && Collect(early)[key] == value {
        var i: nat :| Gives(early, i, key, value);
        assert Gives(pieces, i, key, value);
      }
      if key !in Collect(early) && Keyed(pieces[n], key) && Split(pieces[n], "=")[1] == value {
        assert Gives(pieces, n, key, value);
      }
    }
  }

  lemma GivesInside(pieces: seq<string>, i: nat, key: string, value: string)
    ensures Gives(pieces, i, key, value) ==> i < |pieces|
  {
  }

  // ---------------------------------------------------------------- printing a query

  datatype Pair = Pair(key: string, value: string)

  function Printed(pairs: seq<Pair>): (r: seq<string>)
    ensures |r| == |pairs|
  {
    if pairs == [] then []
    else Printed(pairs[..|pairs| - 1]) + [pairs[|pairs| - 1].key + "=" + pairs[|pairs| - 1].value]
  }

  function PrintQuery(pairs: seq<Pair>): string {
    Join(Printed(pairs), "&")
  }

  function FirstOf(pairs: seq<Pair>): Query {
    if pairs == [] then map[]
    else Emplace(FirstOf(pairs[..|pairs| - 1]), pairs[|pairs| - 1].key, pairs[|pairs| - 1].value)
  }

  // Texts that a printed query can hold.
  ghost predicate Printable(pairs: seq<Pair>) {
    forall p :: p in pairs ==>
      && Free(p.key, '&') && Free(p.key, '=') && Free(p.key, '?')
      && Free(p.value, '&') && Free(p.value, '=') && Free(p.value, '?') && p.value != ""
  }

  lemma SplitPair(p: Pair)
    requires Free(p.key, '=') && Free(p.value, '=') && p.value != ""
    ensures Split(p.key + "=" + p.value, "=") == [p.key, p.value]
  {
    hide Split, Pieces;
    JoinPieces([p.key, p.value], '=');
  }

  lemma {:induction false} CollectPrinted(pairs: seq<Pair>)
    requires Printable(pairs)
    ensures Collect(Printed(pairs)) == FirstOf(pairs)
    ensures AllFree(Printed(pairs), '&') && AllFree(Printed(pairs), '?')
    ensures forall i :: 0 <= i < |pairs| ==> Printed(pairs)[i] != ""
  {
    hide Split;
    if pairs != [] {
      var n := |pairs| - 1;
      CollectPrinted(pairs[..n]);
      SplitPair(pairs[n]);
      assert Printed(pairs)[..n] == Printed(pairs[..n]);
    }
  }

  /** Parsing reads a printed query back; of equal keys the first one counts. */
  lemma ParsePrinted(pairs: seq<Pair>)
    requires Printable(pairs)
    ensures ParseQuery(PrintQuery(pairs)) == FirstOf(pairs)
    ensures Free(PrintQuery(pairs), '?') && (PrintQuery(pairs) == "" <==> pairs == [])
  {
    CollectPrinted(pairs);
    JoinFree(Printed(pairs), "&", '?');
    if pairs != [] {
      hide Split, Collect, FirstOf, Printed;
      JoinPieces(Printed(pairs), '&');
    }
  }

  // ---------------------------------------------------------------- handling a request

  datatype Outcome =
    | NotFound
    | MethodNotAllowed
    | AllowedOptions(verbs: seq<string>)
    | Invoke(callback: nat, query: Query)
    | Undefined        // the source reads outside a string

  const OPTIONS := "OPTIONS"

  function Dispatch(rule: Rule, verb: string, query: Query): Outcome {
    if verb == OPTIONS then AllowedOptions(rule.verbs)
    else if verb !in rule.verbs then MethodNotAllowed
    else Invoke(rule.callback, query)
  }

  // A placeholder's value replaces that of the query.
  function Overlay(query: Query, names: seq<string>, values: seq<string>): Query
    requires |names| == |values|
  {
    if names == [] then query
    else
      var n := |names| - 1;
      Overlay(query, names[..n], values[..n])[names[n] := values[n]]
  }

  // Behind the first '?', up to the second one.
  function QueryPart(split: seq<string>): Query {
    ParseQuery(if |split| > 1 then split[1] else "")
  }

  function Handle(exact: map<string, Rule>, special: seq<Entry>, verb: string, raw: string): Outcome
    requires Compiled(special)
  {
    match Decode(raw)
    case None => Outcome.Undefined
    case Some(decoded) =>
      var target := StripSlashes(decoded);
      if target == "" then NotFound
      else
        var split := Split(target, "?");
        var path := split[0];
        if path in exact then Dispatch(exact[path], verb, QueryPart(split))
        else if OnlySlashes(path) then Outcome.Undefined
        else
          match FirstMatch(special, StripSlashes(path))
          case None => NotFound
          case Some(m) =>
            FirstMatchFits(special, StripSlashes(path));
            Dispatch(m.entry.rule, verb, Overlay(QueryPart(split), m.entry.shape.names, m.values))
  }

  lemma FirstMatchFits(table: seq<Entry>, target: string)
    requires Compiled(table)
    ensures var m := FirstMatch(table, target);
            m.Some? ==> m.value.entry in table && |m.value.values| == |m.value.entry.shape.names|
  {
    FirstMatchMeaning(table, target);
  }

  method PopSlashes(s: string) returns (r: string)
    ensures r == StripSlashes(s)
  {
    r := s;
    while EndsWith(r, "/")
      invariant StripSlashes(r) == StripSlashes(s)
      decreases |r|
    {
      r := r[..|r| - 1];
    }
    assert StripSlashes(r) == r;
  }

  method PutPlaceholders(asked: Query, names: seq<string>, values: seq<string>) returns (query: Query)
    requires |names| == |values|
    ensures query == Overlay(asked, names, values)
  {
    query := asked;
    var i := 0;
    while i < |names|
      invariant 0 <= i <= |names|
      invariant query == Overlay(asked, names[..i], values[..i])
    {
      assert names[..i + 1][..i] == names[..i] && values[..i + 1][..i] == values[..i];
      query := query[names[i] := values[i]];
      i := i + 1;
    }
    assert names[..i] == names && values[..i] == values;
  }

  /** `handle_requests` */
  method HandleRequest(endpoints: Endpoints, verb: string, raw: string) returns (r: Outcome)
    requires endpoints.Valid()
    ensures r == Handle(endpoints.exact, endpoints.special, verb, raw)
  {
    hide Decode, Split, StripSlashes, Overlay, ParseQuery, FirstMatch, Ordered;
    var decoded := DecodeUrl(raw);
    if decoded.None? {
      return Outcome.Undefined;
    }
    var target := PopSlashes(decoded.value);
    if target == "" {
      return NotFound;
    }
    var split := SplitStringView(target, "?");
    var path := split[0];
    if path in endpoints.exact {
      var rule := endpoints.exact[path];
      if verb == OPTIONS {
        return AllowedOptions(rule.verbs);
      }
      if verb !in rule.verbs {
        return MethodNotAllowed;
      }
      var query := SplitOptionalQueries(if |split| > 1 then split[1] else "");
      return Invoke(rule.callback, query);
    }
    if OnlySlashes(path) {
      return Outcome.Undefined;
    }
    var res := endpoints.GetSpecialRules(path);
    if res.None? {
      return NotFound;
    }
    var rule := res.value.entry.rule;
    if verb == OPTIONS {
      return AllowedOptions(rule.verbs);
    }
    if verb !in rule.verbs {
      return MethodNotAllowed;
    }
    FirstMatchFits(endpoints.special, StripSlashes(path));
    var query := SplitOptionalQueries(if |split| > 1 then split[1] else "");
    query := PutPlaceholders(query, res.value.entry.shape.names, res.value.values);
    r := Invoke(rule.callback, query);
  }

  lemma {:induction false} OverlayKeys(query: Query, names: seq<string>, values: seq<string>)
    requires |names| == |values|
    ensures var all := Overlay(query, names, values);
            && (forall key :: key in all <==> key in query || key in names)
            && (forall key :: key in query && key !in names ==> all[key] == query[key])
  {
    if names != [] {
      var n := |names| - 1;
      OverlayKeys(query, names[..n], values[..n]);
      assert names == names[..n] + [names[n]];
    }
  }

  lemma {:induction false} OverlayValue(query: Query, names: seq<string>, values: seq<string>, i: nat)
    requires |names| == |values| && i < |names|
    requires forall j :: i < j < |names| ==> names[j] != names[i]
    ensures names[i] in Overlay(query, names, values) && Overlay(query, names, values)[names[i]] == values[i]
  {
    var n := |names| - 1;
    if i < n {
      OverlayValue(query, names[..n], values[..n], i);
    }
  }

  /** The callback sees every placeholder's value, the last one of a repeated name, and the query for
      every other key. */
  lemma PlaceholdersWin(query: Query, names: seq<string>, values: seq<string>)
    requires |names| == |values|
    ensures var all := Overlay(query, names, values);
            && (forall key :: key in all <==> key in query || key in names)
            && (forall key :: key in query && key !in names ==> all[key] == query[key])
            && (forall i :: 0 <= i < |names| && (forall j :: i < j < |names| ==> names[j] != names[i])
                            ==> all[names[i]] == values[i])
  {
    hide Overlay;
    OverlayKeys(query, names, values);
    forall i | 0 <= i < |names| && forall j :: i < j < |names| ==> names[j] != names[i]
      ensures Overlay(query, names, values)[names[i]] == values[i]
    {
      OverlayValue(query, names, values, i);
    }
  }

  // ---------------------------------------------------------------- the round trip

  function Target(path: string, pairs: seq<Pair>): string {
    if pairs == [] then path else path + "?" + PrintQuery(pairs)
  }

  /** A target with two pairs, for one. */
  lemma PrintedTarget()
    ensures var pairs := [Pair("x", "1"), Pair("y", "2")];
            Printable(pairs) && Target("/a", pairs) == "/a?x=1&y=2" && Target("/a", []) == "/a"
  {
    var pairs := [Pair("x", "1"), Pair("y", "2")];
    assert pairs[..1] == [Pair("x", "1")] && [Pair("x", "1")][..0] == [];
    assert "x" + "=" + "1" == "x=1" && "y" + "=" + "2" == "y=2";
    assert Printed([]) == [];
    assert Printed([Pair("x", "1")]) == [] + ["x=1"];
    assert Printed(pairs) == ["x=1", "y=2"];
    assert ["x=1", "y=2"][1..] == ["y=2"];
    assert Join(["x=1", "y=2"], "&") == "x=1&y=2";
  }

  predicate Closed(s: string) {
    s != "" && s[|s| - 1] != '/'
  }

  // What the session makes of a printed target before it looks into the tables.
  lemma TargetParts(path: string, pairs: seq<Pair>, styles: seq<Style>)
    requires Printable(pairs) && Free(path, '?') && Closed(Target(path, pairs))
    requires IsBytes(Target(path, pairs)) && |styles| == |Target(path, pairs)|
    ensures var target := Target(path, pairs);
            && Decode(Escape(target, styles)) == Some(target) && StripSlashes(target) == target
            && Split(target, "?")[0] == path && QueryPart(Split(target, "?")) == FirstOf(pairs)
  {
    hide Decode, Escape, ParseQuery, PrintQuery, Split, Pieces, FirstOf;
    DecodeEscape(Target(path, pairs), styles);
    ParsePrinted(pairs);
    if pairs == [] {
      JoinPieces([path], '?');
    } else {
      JoinPieces([path, PrintQuery(pairs)], '?');
    }
  }

  // How a rule answers a verb: the options are listed, a verb of the rule runs the callback with this
  // query, and any other is refused.
  ghost predicate Answered(r: Outcome, rule: Rule, verb: string, query: Query) {
    && (r == AllowedOptions(rule.verbs) <==> verb == "OPTIONS")
    && (r == Invoke(rule.callback, query) <==> verb != "OPTIONS" && verb in rule.verbs)
    && (r == MethodNotAllowed <==> verb != "OPTIONS" && verb !in rule.verbs)
  }

  /** Every target whose path is an exact route is answered by the rule of that route, and every other one
      by the rule of the first template in prefix order of which its path is an instance, with that
      instance's values over the query. */
  lemma EveryRouteAnswers(exact: map<string, Rule>, special: seq<Entry>, verb: string, raw: string)
    requires Compiled(special) && Decode(raw).Some? && !OnlySlashes(Decode(raw).value)
    ensures var split := Split(StripSlashes(Decode(raw).value), "?");
            var r, path, query := Handle(exact, special, verb, raw), split[0], QueryPart(split);
            && (path in exact ==> Answered(r, exact[path], verb, query))
            && (path !in exact && !OnlySlashes(path) ==>
                forall i: nat, values :: FirstHit(special, i, StripSlashes(path), values) ==>
                  Answered(r, special[i].rule, verb, Overlay(query, special[i].shape.names, values)))
  {
    hide Decode, Split, StripSlashes, QueryPart, Overlay, FirstMatch;
    var split := Split(StripSlashes(Decode(raw).value), "?");
    var path := split[0];
    forall i: nat, values | FirstHit(special, i, StripSlashes(path), values)
      ensures FirstMatch(special, StripSlashes(path)) == Some(Matched(special[i], values))
    {
      FirstHitFound(special, i, StripSlashes(path), values);
    }
    hide FirstHit;
  }

  // Entry `i` matches, and none before it.
  ghost predicate FirstHit(special: seq<Entry>, i: nat, target: string, values: seq<string>) {
    Hits(special, i, target, values) && forall j: nat, other :: j < i ==> !Hits(special, j, target, other)
  }

  lemma FirstHitFound(special: seq<Entry>, i: nat, target: string, values: seq<string>)
    requires Compiled(special) && FirstHit(special, i, target, values)
    ensures FirstMatch(special, target) == Some(Matched(special[i], values))
  {
    FirstMatchMeaning(special, target);
    match FirstMatch(special, target)
    case None =>
    case Some(m) =>
      var k: nat :| Hits(special, k, target, m.values) && special[k] == m.entry
                    && forall j: nat, other :: j < k ==> !Hits(special, j, target, other);
      assert k == i;
      MatchMeaning(special[i].shape, target, values);
      MatchMeaning(special[i].shape, target, m.values);
  }

  /** The query is what stands between the first '?' and the second one or the end. */
  lemma QueryPartMeaning(path: string, query: string, rest: string)
    requires Free(path, '?') && Free(query, '?')
    ensures QueryPart(Split(path, "?")) == map[]
    ensures QueryPart(Split(path + "?" + query, "?")) == ParseQuery(query)
    ensures QueryPart(Split(path + "?" + query + "?" + rest, "?")) == ParseQuery(query)
  {
    SecondPiece(path, '?', query, rest);
  }

  /** A piece gives a key the value between its first '=' and the second one or the end, if there is any. */
  lemma PieceMeaning(before: Query, key: string, value: string, rest: string)
    requires Free(key, '=') && Free(value, '=')
    ensures var after := if key in before then before else before[key := value];
            && AddPiece(before, key) == before
            && AddPiece(before, key + "=" + value) == (if value == "" then before else after)
            && AddPiece(before, key + "=" + value + "=" + rest) == after
  {
    SecondPiece(key, '=', value, rest);
  }

  /** Whatever bytes of a printed target are escaped, an exact route gets its query back. */
  lemma ExactRoundTrip(exact: map<string, Rule>, special: seq<Entry>, verb: string,
                       path: string, pairs: seq<Pair>, styles: seq<Style>)
    requires Compiled(special) && path in exact
    requires Printable(pairs) && Free(path, '?') && Closed(Target(path, pairs))
    requires IsBytes(Target(path, pairs)) && |styles| == |Target(path, pairs)|
    ensures Answered(Handle(exact, special, verb, Escape(Target(path, pairs), styles)), exact[path], verb, FirstOf(pairs))
  {
    hide Decode, Escape, Split, QueryPart, FirstOf, Target;
    TargetParts(path, pairs, styles);
  }

  /** Whatever bytes of the printed instance of a template and its query are escaped, the template's
      own rule is dispatched with the placeholders over the query. */
  lemma SpecialRoundTrip(exact: map<string, Rule>, special: seq<Entry>, verb: string,
                         i: nat, values: seq<string>, pairs: seq<Pair>, styles: seq<Style>)
    requires Compiled(special) && PrefixFree(special) && i < |special| && Fits(special[i].shape, values)
    requires var path := Instance(special[i].shape, values);
             && path !in exact && Free(path, '?') && Closed(path)
             && Printable(pairs) && Closed(Target(path, pairs))
             && IsBytes(Target(path, pairs)) && |styles| == |Target(path, pairs)|
    ensures var path := Instance(special[i].shape, values);
            Answered(Handle(exact, special, verb, Escape(Target(path, pairs), styles)),
                     special[i].rule, verb, Overlay(FirstOf(pairs), special[i].shape.names, values))
  {
    hide Decode, Escape, Split, QueryPart, FirstOf, Target, Instance, FirstMatch, Overlay;
    var path := Instance(special[i].shape, values);
    TargetParts(path, pairs, styles);
    InstanceFound(special, i, values);
    assert StripSlashes(path) == path;
  }

  // Entry `i` answers a call with this outcome.
  ghost predicate Answers(special: seq<Entry>, i: nat, verb: string, path: string, query: Query, values: seq<string>,
                          r: Outcome)
  {
    && Hits(special, i, StripSlashes(path), values) && verb in special[i].rule.verbs
    && r == Invoke(special[i].rule.callback, Overlay(query, special[i].shape.names, values))
  }

  /** A callback is only run for its own route: the path is that exact route, or it is an instance of the
      template, with the values the callback sees, and no earlier template in prefix order fits. */
  lemma OnlyOwnRoutes(exact: map<string, Rule>, special: seq<Entry>, verb: string, raw: string)
    requires Compiled(special) && Handle(exact, special, verb, raw).Invoke?
    ensures Decode(raw).Some?
    ensures var r, split := Handle(exact, special, verb, raw), Split(StripSlashes(Decode(raw).value), "?");
            var path, query := split[0], QueryPart(split);
            if path in exact then verb in exact[path].verbs && r == Invoke(exact[path].callback, query)
            else exists i: nat, values :: Answers(special, i, verb, path, query, values, r)
                                          && forall j: nat, other :: j < i ==> !Hits(special, j, StripSlashes(path), other)
  {
    hide Decode, Split, StripSlashes, QueryPart, Overlay, FirstMatch, Fits, Instance;
    var split := Split(StripSlashes(Decode(raw).value), "?");
    var path := split[0];
    if path !in exact {
      var target := StripSlashes(path);
      FirstMatchMeaning(special, target);
      FirstMatchFits(special, target);
      var m := FirstMatch(special, target).value;
      var i: nat :| Hits(special, i, target, m.values) && special[i] == m.entry
                    && forall j: nat, other :: j < i ==> !Hits(special, j, target, other);
      assert Answers(special, i, verb, path, QueryPart(split), m.values, Handle(exact, special, verb, raw));
    }
  }

  // ---------------------------------------------------------------- where it fails

  // The path of a decoded target, as the session looks it up.
  function PathOf(decoded: string): string {
    Split(StripSlashes(decoded), "?")[0]
  }

  // Nothing but slashes before the first '?'
  predicate QuestionFirst(s: string) {
    exists k :: 0 <= k < |s| && s[k] == '?' && forall j :: 0 <= j < k ==> s[j] == '/'
  }

  lemma PathMeaning(s: string)
    ensures var k := Find(s, "?", 0);
            Split(s, "?")[0] == (if k <= |s| then s[..k] else s) && Free(Split(s, "?")[0], '?')
    ensures Find(s, "?", 0) <= |s| ==> Find(s, "?", 0) < |s| && s[Find(s, "?", 0)] == '?'
  {
    AtChar(s, '?');
    if Contains(s, "?") {
      PiecesCons(s, "?");
    }
  }

  lemma PathIsSlashes(s: string)
    requires Closed(s)
    ensures OnlySlashes(Split(s, "?")[0]) <==> QuestionFirst(s)
  {
    PathMeaning(s);
    var path := Split(s, "?")[0];
    hide Split, Find, At, OnlySlashes;
    OnlySlashesMeaning(path);
    assert forall j :: 0 <= j < |path| ==> path[j] == s[j] && path[j] in path;
    assert forall j :: 0 <= j < |path| ==> s[j] != '?';
    assert |path| == |s| ==> s[|s| - 1] == path[|s| - 1];
  }

  lemma QuestionStripped(s: string)
    ensures QuestionFirst(StripSlashes(s)) <==> QuestionFirst(s)
  {
    var t := StripSlashes(s);
    StripMeaning(s);
    if QuestionFirst(s) {
      var k :| 0 <= k < |s| && s[k] == '?' && forall j :: 0 <= j < k ==> s[j] == '/';
      assert t[k] == s[k];
    }
    if QuestionFirst(t) {
      var k :| 0 <= k < |t| && t[k] == '?' && forall j :: 0 <= j < k ==> t[j] == '/';
      assert s[k] == t[k] && forall j :: 0 <= j < k ==> s[j] == t[j];
    }
  }

  /** Handling a request leaves a string if and only if decoding does (`Text.DecodeDefined`) or the first
      character of the decoded target that is no slash is a '?', whatever routes there are. */
  lemma UndefinedExactly(exact: map<string, Rule>, special: seq<Entry>, verb: string, raw: string)
    requires Compiled(special) && ExactKeys(exact)
    ensures Handle(exact, special, verb, raw) == Outcome.Undefined
            <==> Decode(raw).None? || QuestionFirst(Decode(raw).value)
  {
    hide Decode, Split, StripSlashes, QuestionFirst, FirstMatch, QueryPart, Overlay;
    if Decode(raw).Some? {
      var target := StripSlashes(Decode(raw).value);
      QuestionStripped(Decode(raw).value);
      if target == "" {
        NoQuestion();
      } else {
        PathIsSlashes(target);
      }
    }
  }

  lemma NoQuestion()
    ensures !QuestionFirst("")
  {
  }

  // Some template has the target as an instance.
  ghost predicate SomeHit(special: seq<Entry>, target: string) {
    exists i: nat, values :: Hits(special, i, target, values)
  }

  lemma FirstMatchIfHit(special: seq<Entry>, target: string)
    requires Compiled(special)
    ensures FirstMatch(special, target).Some? <==> SomeHit(special, target)
  {
    FirstMatchMeaning(special, target);
    hide Hits;
    match FirstMatch(special, target)
    case None =>
    case Some(m) =>
      var i: nat :| Hits(special, i, target, m.values);
  }

  /** A request is not found if and only if its decoded target is slashes only, or its path is neither an
      exact route nor, without trailing slashes, an instance of any template. */
  lemma NotFoundExactly(exact: map<string, Rule>, special: seq<Entry>, verb: string, raw: string)
    requires Compiled(special) && ExactKeys(exact) && Handle(exact, special, verb, raw) != Outcome.Undefined
    ensures Decode(raw).Some?
    ensures var decoded := Decode(raw).value;
            Handle(exact, special, verb, raw) == NotFound
            <==> OnlySlashes(decoded)
                 || (PathOf(decoded) !in exact && !SomeHit(special, StripSlashes(PathOf(decoded))))
  {
    hide Decode, Split, StripSlashes, QueryPart, Overlay, FirstMatch, SomeHit;
    FirstMatchIfHit(special, StripSlashes(PathOf(Decode(raw).value)));
  }

  /** Two requests that fail so, whatever routes there are: a '%' at the end, and a query without a
      path. */
  lemma FailingRequests(exact: map<string, Rule>, special: seq<Entry>, verb: string, raw: string)
    requires Compiled(special) && ExactKeys(exact)
    requires raw == "/%" || raw == "/?a=1"
    ensures Handle(exact, special, verb, raw) == Outcome.Undefined
  {
    hide Handle;
    UndefinedExactly(exact, special, verb, raw);
    if raw == "/%" {
      DanglingPercent();
      assert Decode(raw).None?;
    } else {
      PlainDecodes(raw);
      assert raw[0] == '/' && raw[1] == '?';
      assert QuestionFirst(raw);
      assert Decode(raw) == Some(raw);
    }
  }

  lemma {:induction false} PlainDecodes(s: string)
    requires Free(s, '%')
    ensures Decode(s) == Some(s)
  {
    if s != "" {
      PlainDecodes(s[1..]);
      assert s == [s[0]] + s[1..];
    }
  }

  // ---------------------------------------------------------------- the session's own tables

  // "/name/", as all templates of the session begin.
  ghost predicate OneSegment(prefix: string) {
    |prefix| >= 2 && prefix[|prefix| - 1] == '/' && forall i :: 0 < i < |prefix| - 1 ==> prefix[i] != '/'
  }

  // "/name", as all its exact routes are.
  ghost predicate OneName(route: string) {
    forall i :: 0 < i < |route| ==> route[i] != '/'
  }

  ghost predicate SessionTables(exact: map<string, Rule>, special: seq<Entry>) {
    && (forall route :: route in exact ==> OneName(route))
    && Ordered(special) && Compiled(special)
    && forall i :: 0 <= i < |special| ==> OneSegment(special[i].shape.prefix)
  }

  lemma SegmentsApart(p: string, q: string)
    requires OneSegment(p) && OneSegment(q) && p <= q
    ensures p == q
  {
    assert q[|p| - 1] == p[|p| - 1];
  }

  lemma SegmentsPrefixFree(special: seq<Entry>)
    requires Ordered(special) && forall i :: 0 <= i < |special| ==> OneSegment(special[i].shape.prefix)
    ensures PrefixFree(special)
  {
    forall i, j | 0 <= i < |special| && 0 <= j < |special| && i != j
      ensures !(special[i].shape.prefix <= special[j].shape.prefix)
    {
      if special[i].shape.prefix <= special[j].shape.prefix {
        SegmentsApart(special[i].shape.prefix, special[j].shape.prefix);
        assert false;
      }
    }
  }

  lemma InstanceIsNoName(shape: Shape, values: seq<string>)
    requires OneSegment(shape.prefix)
    ensures !OneName(Instance(shape, values))
  {
    var k := |shape.prefix| - 1;
    assert Instance(shape, values)[k] == shape.prefix[k];
  }

  /** With tables like the session's, whose exact routes are single names and whose templates begin with
      one name, every printed instance of every template is dispatched to that template's rule with all
      of its placeholders and its query, on the only conditions that the path and the target do not end
      in a slash and that no '?' is in the path. */
  lemma SessionRoundTrip(exact: map<string, Rule>, special: seq<Entry>, verb: string,
                         i: nat, values: seq<string>, pairs: seq<Pair>, styles: seq<Style>)
    requires SessionTables(exact, special) && i < |special| && Fits(special[i].shape, values)
    requires var path := Instance(special[i].shape, values);
             && Free(path, '?') && Closed(path)
             && Printable(pairs) && Closed(Target(path, pairs))
             && IsBytes(Target(path, pairs)) && |styles| == |Target(path, pairs)|
    ensures var path := Instance(special[i].shape, values);
            Answered(Handle(exact, special, verb, Escape(Target(path, pairs), styles)),
                     special[i].rule, verb, Overlay(FirstOf(pairs), special[i].shape.names, values))
  {
    hide Handle, Escape, Target, Answered, Instance, Overlay, FirstOf, OneSegment, OneName, PrefixFree, Ordered;
    SegmentsPrefixFree(special);
    InstanceIsNoName(special[i].shape, values);
    SpecialRoundTrip(exact, special, verb, i, values, pairs, styles);
  }
}
