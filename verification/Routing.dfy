/** The route table of http_stream/src/endpoint.cpp and http_stream/include/endpoint.hpp: exact
    routes, and templates such as "/latest_price/{exchange}/{trade}/{symbol}".
 */
module Routing {
  import opened Options
  import opened Ordering
  import opened Text

  // A rule names its verbs; the callback is a number.
  datatype Rule = Rule(verbs: seq<string>, callback: nat)

  // What a template compiles to.
  datatype Shape = Shape(prefix: string, names: seq<string>, suffix: string)

  datatype Entry = Entry(shape: Shape, rule: Rule)

  datatype RouteError =
    | NoLeadingSlash
    | NoPlaceholder
    | BadPrefix
    | NoEnd
    | EmptyName
    | NotSeparated
    | DuplicatePrefix
    | Undefined        // `back()` of an empty string: a suffix of slashes only

  datatype Result<+T> = Ok(value: T) | Err(error: RouteError)

  // ---------------------------------------------------------------- compiling a template

  function Before(name: string, r: Result<(seq<string>, nat)>): Result<(seq<string>, nat)> {
    match r
    case Err(e) => Err(e)
    case Ok((names, last)) => Ok(([name] + names, last))
  }

  // The loop over the placeholders from the '{' at `index`: their names, and where the last one
  // ends.
  function Placeholders(route: string, index: nat): (r: Result<(seq<string>, nat)>)
    requires index < |route|
    ensures r.Ok? ==> index < r.value.1 < |route|
    decreases |route| - index
  {
    var end := Find(route, "}", index);
    if end > |route| then Err(NoEnd)
    else
      var name := if end == index then "" else route[index + 1..end];
      if name == "" then Err(EmptyName)
      else
        var next := if end + 1 >= |route| then |route| + 1 else Find(route, "{", end + 1);
        if next > |route| then Ok(([name], end))
        else if route[next - 1] != '/' then Err(NotSeparated)
        else
          Before(name, Placeholders(route, next))
  }

  /** `construct_special_placeholder`, up to the table.  `trimCopy` returns its argument as it is
      (common/src/string_utils.cpp:35-39). */
  function Compile(route: string): Result<Shape> {
    var index := Find(route, "{", 0);
    if index > |route| || index == 0 then Err(NoPlaceholder)
    else
      var prefix := route[..index];
      if prefix == "/" then Err(BadPrefix)
      else
        match Placeholders(route, index)
        case Err(e) => Err(e)
        case Ok((names, last)) =>
          var rest := route[last + 1..];
          if rest != "" && OnlySlashes(rest) then Err(Undefined)
          else Ok(Shape(prefix, names, StripSlashes(rest)))
  }

  // Braced names, each pair separated by some text and a slash.
  function Body(names: seq<string>, gaps: seq<string>): string
    requires |names| == |gaps| + 1
  {
    "{" + names[0] + "}" + if gaps == [] then "" else gaps[0] + "/" + Body(names[1..], gaps[1..])
  }

  // A template; the gaps of a usual one are empty.
  function Template(shape: Shape, gaps: seq<string>): string
    requires |shape.names| == |gaps| + 1
  {
    shape.prefix + Body(shape.names, gaps) + shape.suffix
  }

  ghost predicate Spelled(shape: Shape, gaps: seq<string>) {
    && shape.prefix != "" && shape.prefix != "/" && Free(shape.prefix, '{')
    && AllFree(shape.names, '}') && (forall i :: 0 <= i < |shape.names| ==> shape.names[i] != "")
    && |shape.names| == |gaps| + 1 && AllFree(gaps, '{')
    && Free(shape.suffix, '{')
  }

  // A suffix of slashes only runs the source's loop over it out of the string.
  predicate BadSuffix(suffix: string) {
    suffix != "" && OnlySlashes(suffix)
  }

  lemma FindFrom(a: string, b: string, c: char, rest: string)
    requires Free(b, c)
    ensures Find(a + b + [c] + rest, [c], |a|) == |a| + |b|
  {
    FindChar(b, c, rest);
    FindInRest(a + b + [c] + rest, [c], |a|);
    assert (a + b + [c] + rest)[|a|..] == b + [c] + rest;
  }

  lemma NotFoundFrom(a: string, b: string, c: char)
    requires Free(b, c)
    ensures Find(a + b, [c], |a|) > |a + b|
  {
    FindChar(b, c, "");
    FindInRest(a + b, [c], |a|);
    assert (a + b)[|a|..] == b;
  }

  // One turn of the loop, in positions.
  lemma LastTurn(route: string, index: nat, end: nat)
    requires index + 1 < end < |route| && end == Find(route, "}", index)
    requires Find(route, "{", end + 1) > |route|
    ensures Placeholders(route, index) == Ok(([route[index + 1..end]], end))
  {
    hide Find, At;
    assert |route[index + 1..end]| > 0;
  }

  lemma NextTurn(route: string, index: nat, end: nat, next: nat)
    requires index + 1 < end < next - 1 < |route| && end == Find(route, "}", index)
    requires Find(route, "{", end + 1) == next < |route| && route[next - 1] == '/'
    ensures Placeholders(route, index)
            == Before(route[index + 1..end], Placeholders(route, next))
  {
    hide Find, At;
    assert |route[index + 1..end]| > 0;
  }

  // Where the name of a braced placeholder is found.
  lemma NameAt(before: string, name: string, tail: string)
    requires Free(name, '}')
    ensures var route, end := before + "{" + name + "}" + tail, |before| + 1 + |name|;
            && Find(route, "}", |before|) == end < |route|
            && route[|before| + 1..end] == name
  {
    hide Find, At;
    var route := before + "{" + name + "}" + tail;
    assert route == before + ("{" + name) + ['}'] + tail;
    FindFrom(before, "{" + name, '}', tail);
  }

  lemma SlashNext(open: string, gap: string, after: string)
    requires Free(gap, '{')
    ensures var route, next := open + (gap + "/{" + after), |open| + |gap| + 1;
            Find(route, "{", |open|) == next && route[next - 1] == '/' && |route| == next + 1 + |after|
  {
    hide Find, At;
    var route := open + (gap + "/{" + after);
    FindFrom(open, gap + "/", '{', after);
    assert route == open + (gap + "/") + ['{'] + after;
  }

  lemma LastPlaceholder(before: string, name: string, suffix: string)
    requires name != "" && Free(name, '}') && Free(suffix, '{')
    ensures var route := before + "{" + name + "}" + suffix;
            Placeholders(route, |before|) == Ok(([name], |before| + |name| + 1))
  {
    hide Find, At, Placeholders, Free;
    NameAt(before, name, suffix);
    NotFoundFrom(before + "{" + name + "}", suffix, '{');
    LastTurn(before + "{" + name + "}" + suffix, |before|, |before| + 1 + |name|);
  }

  // Where the next placeholder of a longer template is found.
  lemma NextAt(route: string, before: string, name: string, gap: string, after: string)
    requires Free(name, '}') && Free(gap, '{') && route == before + "{" + name + "}" + (gap + "/{" + after)
    ensures var end, next := |before| + |name| + 1, |before| + |name| + |gap| + 3;
            && end < next < |route|
            && Find(route, "}", |before|) == end && route[|before| + 1..end] == name
            && Find(route, "{", end + 1) == next && route[next - 1] == '/'
  {
    hide Find, At, Free;
    NameAt(before, name, gap + "/{" + after);
    SlashNext(before + "{" + name + "}", gap, after);
  }

  lemma NamedTurn(route: string, index: nat, name: string, next: nat, names: seq<string>, last: nat)
    requires name != "" && index + |name| + 2 < next < |route|
    requires Find(route, "}", index) == index + 1 + |name| && route[index + 1..index + 1 + |name|] == name
    requires Find(route, "{", index + |name| + 2) == next && route[next - 1] == '/'
    requires Placeholders(route, next) == Ok((names, last))
    ensures Placeholders(route, index) == Ok(([name] + names, last))
  {
    hide Find, At, Placeholders;
    NextTurn(route, index, index + 1 + |name|, next);
  }

  lemma Regroup(before: string, name: string, gap: string, rest: string, suffix: string)
    requires rest != "" && rest[0] == '{'
    ensures before + ("{" + name + "}" + (gap + "/" + rest)) + suffix
            == before + "{" + name + "}" + (gap + "/{" + (rest[1..] + suffix))
            == (before + "{" + name + "}" + gap + "/") + rest + suffix
  {
    assert rest == "{" + rest[1..];
  }

  lemma {:induction false} CompilePlaceholders(before: string, names: seq<string>, gaps: seq<string>, suffix: string)
    requires |names| == |gaps| + 1 && AllFree(names, '}') && AllFree(gaps, '{') && Free(suffix, '{')
    requires forall i :: 0 <= i < |names| ==> names[i] != ""
    ensures var body := Body(names, gaps);
            && body != "" && body[0] == '{'
            && Placeholders(before + body + suffix, |before|) == Ok((names, |before| + |body| - 1))
    decreases |names|
  {
    hide Placeholders, Find, At, Before;
    var name := names[0];
    if gaps == [] {
      assert names == [name];
      LastPlaceholder(before, name, suffix);
      assert Body(names, gaps) == "{" + name + "}";
      assert before + ("{" + name + "}") + suffix == before + "{" + name + "}" + suffix;
    } else {
      var later, rest := before + "{" + name + "}" + gaps[0] + "/", Body(names[1..], gaps[1..]);
      CompilePlaceholders(later, names[1..], gaps[1..], suffix);
      Regroup(before, name, gaps[0], rest, suffix);
      NextAt(before + Body(names, gaps) + suffix, before, name, gaps[0], rest[1..] + suffix);
      NamedTurn(before + Body(names, gaps) + suffix, |before|, name, |later|, names[1..], |later| + |rest| - 1);
      assert names == [name] + names[1..];
    }
  }

  /** Compiling reads a template back: prefix, names in order, and the suffix without its trailing
      slashes; but a suffix of slashes only is undefined. */
  lemma CompileTemplate(shape: Shape, gaps: seq<string>)
    requires Spelled(shape, gaps)
    ensures Compile(Template(shape, gaps))
            == if BadSuffix(shape.suffix) then Err(Undefined) else Ok(shape.(suffix := StripSlashes(shape.suffix)))
  {
    hide Placeholders, Find, At, Body, OnlySlashes;
    var body := Body(shape.names, gaps);
    var route := Template(shape, gaps);
    var p := shape.prefix;
    CompilePlaceholders(p, shape.names, gaps, shape.suffix);
    assert body == "{" + body[1..];
    assert route == p + ['{'] + (body[1..] + shape.suffix);
    FindChar(p, '{', body[1..] + shape.suffix);
    assert route[..|p|] == p;
    assert route[|p| + |body|..] == shape.suffix;
  }

  // Where a character is found, and where it is not.
  lemma CharAt(s: string, c: char, from: nat)
    requires from <= |s|
    ensures var i := Find(s, [c], from);
            if i > |s| then Free(s[from..], c) else from <= i < |s| && s[i] == c && Free(s[from..i], c)
  {
    AtChar(s, c);
    var i := Find(s, [c], from);
    assert i <= |s| ==> At(s, [c], i);
    assert forall j: nat :: from <= j < i && j < |s| ==> !At(s, [c], j);
  }

  lemma CutLast(route: string, index: nat, end: nat)
    requires index < end < |route| && route[index] == '{' && route[end] == '}'
    ensures route[index..end + 1] == "{" + route[index + 1..end] + "}"
  {
  }

  lemma CutNext(route: string, index: nat, end: nat, next: nat, last: nat)
    requires index < end < next - 1 && next <= last < |route|
    requires route[index] == '{' && route[end] == '}' && route[next - 1] == '/'
    ensures route[index..last + 1]
            == "{" + route[index + 1..end] + "}" + (route[end + 1..next - 1] + "/" + route[next..last + 1])
  {
  }

  lemma BodyCons(name: string, names: seq<string>, gap: string, gaps: seq<string>)
    requires |names| == |gaps| + 1
    ensures Body([name] + names, [gap] + gaps) == "{" + name + "}" + (gap + "/" + Body(names, gaps))
    ensures Body([name], []) == "{" + name + "}"
  {
    assert ([name] + names)[1..] == names && ([gap] + gaps)[1..] == gaps;
  }

  // One turn of a loop that ends well.
  lemma GoodTurn(route: string, index: nat)
    requires index < |route| && Placeholders(route, index).Ok?
    ensures var end := Find(route, "}", index);
            var next := Find(route, "{", end + 1);
            && index + 1 < end < |route|
            && if next > |route| then Placeholders(route, index) == Ok(([route[index + 1..end]], end))
               else end < next && next < |route| && route[next - 1] == '/' && Placeholders(route, next).Ok?
                    && Placeholders(route, index) == Before(route[index + 1..end], Placeholders(route, next))
  {
    CharAt(route, '}', index);
    CharAt(route, '{', Find(route, "}", index) + 1);
    hide Find, At;
  }

  // What the loop has read is placeholders and gaps.
  lemma {:induction false} PlaceholdersSound(route: string, index: nat) returns (gaps: seq<string>)
    requires index < |route| && route[index] == '{' && Placeholders(route, index).Ok?
    ensures var (names, last) := Placeholders(route, index).value;
            && |names| == |gaps| + 1 && AllFree(names, '}') && AllFree(gaps, '{')
            && (forall i :: 0 <= i < |names| ==> names[i] != "")
            && route[index..last + 1] == Body(names, gaps) && Free(route[last + 1..], '{')
    decreases |route| - index
  {
    hide Find, At, Body, Placeholders;
    var end := Find(route, "}", index);
    CharAt(route, '}', index);
    GoodTurn(route, index);
    var name := route[index + 1..end];
    assert Free(name, '}');
    var next := Find(route, "{", end + 1);
    CharAt(route, '{', end + 1);
    if next > |route| {
      gaps := [];
      CutLast(route, index, end);
      BodyCons(name, [""], "", []);
    } else {
      var rest := PlaceholdersSound(route, next);
      var (names, last) := Placeholders(route, next).value;
      var gap := route[end + 1..next - 1];
      gaps := [gap] + rest;
      CutNext(route, index, end, next, last);
      BodyCons(name, names, gap, rest);
    }
  }

  // Nothing fails once the placeholders are read but the loop over the suffix.
  lemma ReadTemplate(route: string) returns (shape: Shape, gaps: seq<string>)
    requires Compile(route).Ok? || Compile(route) == Err(Undefined)
    ensures Spelled(shape, gaps) && route == Template(shape, gaps)
  {
    PlaceholdersNeverUndefined(route, Find(route, "{", 0));
    hide Find, At, Body, Placeholders;
    var index := Find(route, "{", 0);
    CharAt(route, '{', 0);
    gaps := PlaceholdersSound(route, index);
    var (names, last) := Placeholders(route, index).value;
    shape := Shape(route[..index], names, route[last + 1..]);
    assert route == route[..index] + route[index..last + 1] + route[last + 1..];
  }

  lemma {:induction false} PlaceholdersNeverUndefined(route: string, index: nat)
    ensures index < |route| ==> Placeholders(route, index) != Err(Undefined)
    decreases |route| - index
  {
    hide Find, At;
    if index < |route| {
      var end := Find(route, "}", index);
      if end + 1 < |route| {
        PlaceholdersNeverUndefined(route, Find(route, "{", end + 1));
      }
    }
  }

  /** Exactly the templates compile, apart from those whose suffix is slashes only, and those are exactly
      the routes on which compiling is undefined. */
  lemma OnlyTemplatesCompile(route: string)
    ensures Compile(route).Ok? <==>
            exists shape, gaps :: Spelled(shape, gaps) && !BadSuffix(shape.suffix) && route == Template(shape, gaps)
    ensures Compile(route) == Err(Undefined) <==>
            exists shape, gaps :: Spelled(shape, gaps) && BadSuffix(shape.suffix) && route == Template(shape, gaps)
    ensures forall shape, gaps :: Spelled(shape, gaps) && route == Template(shape, gaps) && Compile(route).Ok? ==>
            Compile(route) == Ok(shape.(suffix := StripSlashes(shape.suffix)))
  {
    hide Compile, Template, BadSuffix;
    forall shape, gaps | Spelled(shape, gaps) && route == Template(shape, gaps)
      ensures Compile(route)
              == if BadSuffix(shape.suffix) then Err(Undefined) else Ok(shape.(suffix := StripSlashes(shape.suffix)))
    {
      CompileTemplate(shape, gaps);
    }
    if Compile(route).Ok? || Compile(route) == Err(Undefined) {
      var shape, gaps := ReadTemplate(route);
    }
  }

  /** A slash behind the last placeholder is enough. */
  lemma TrailingSlashIsUndefined()
    ensures Compile("/a/{x}/") == Err(Undefined)
  {
    var shape := Shape("/a/", ["x"], "/");
    assert Template(shape, []) == "/a/{x}/" by {
      assert Body(["x"], []) == "{x}";
    }
    assert OnlySlashes("/") by {
      OnlySlashesMeaning("/");
    }
    CompileTemplate(shape, []);
  }

  // ---------------------------------------------------------------- matching one template

  // The turn of the loop in `get_special_rules` for one entry of the table.
  function Match(shape: Shape, target: string): Option<seq<string>> {
    if !(shape.prefix <= target) then None
    else
      var rest := EraseFirst(target, shape.prefix);
      if shape.suffix != "" && !EndsWith(rest, shape.suffix) then None
      else
        var values := SplitAll(if shape.suffix == "" then rest else EraseLast(rest, shape.suffix), '/');
        if |values| != |shape.names| then None else Some(values)
  }

  function Instance(shape: Shape, values: seq<string>): string {
    shape.prefix + Join(values, "/") + shape.suffix
  }

  ghost predicate Fits(shape: Shape, values: seq<string>) {
    |values| == |shape.names| && AllFree(values, '/')
  }

  lemma MatchBody(shape: Shape, body: string)
    ensures Match(shape, shape.prefix + body + shape.suffix)
            == if |SplitAll(body, '/')| != |shape.names| then None else Some(SplitAll(body, '/'))
  {
    hide Find, At, FindLast, EraseFirst, EraseLast;
    var target, rest := shape.prefix + body + shape.suffix, body + shape.suffix;
    EraseAtEnds(target, shape.prefix);
    EraseAtEnds(rest, shape.suffix);
    assert target[|shape.prefix|..] == rest;
    assert rest[..|rest| - |shape.suffix|] == body;
    assert rest[|rest| - |shape.suffix|..] == shape.suffix;
    assert shape.suffix == "" ==> rest == body;
  }

  lemma MatchNeedsBody(shape: Shape, target: string)
    requires Match(shape, target).Some?
    ensures exists body :: target == shape.prefix + body + shape.suffix
  {
    hide Find, At, FindLast, EraseFirst, EraseLast;
    EraseAtEnds(target, shape.prefix);
    var rest := target[|shape.prefix|..];
    if shape.suffix == "" {
      assert target == shape.prefix + rest + "";
    } else {
      assert target == shape.prefix + rest[..|rest| - |shape.suffix|] + shape.suffix;
    }
  }

  /** A template matches a target with some values if and only if the target is the template's
      instance at these slash-free values. */
  lemma MatchMeaning(shape: Shape, target: string, values: seq<string>)
    requires shape.names != []
    ensures Match(shape, target) == Some(values) <==> Fits(shape, values) && Instance(shape, values) == target
  {
    hide Match;
    if Match(shape, target).Some? {
      MatchNeedsBody(shape, target);
      var body :| target == shape.prefix + body + shape.suffix;
      MatchBody(shape, body);
      SplitAllInverse(body, '/');
    }
    if Fits(shape, values) && Instance(shape, values) == target {
      MatchBody(shape, Join(values, "/"));
      JoinSplitAll(values, '/');
    }
  }

  // Values with the template's own gaps between them, as the route spells it out.
  function WithGaps(values: seq<string>, gaps: seq<string>): string
    requires |values| == |gaps| + 1
  {
    values[0] + if gaps == [] then "" else gaps[0] + "/" + WithGaps(values[1..], gaps[1..])
  }

  ghost predicate NoGaps(gaps: seq<string>) {
    forall i :: 0 <= i < |gaps| ==> gaps[i] == ""
  }

  lemma {:induction false} GapsAddLength(values: seq<string>, gaps: seq<string>)
    requires |values| == |gaps| + 1
    ensures if NoGaps(gaps) then WithGaps(values, gaps) == Join(values, "/")
            else |WithGaps(values, gaps)| > |Join(values, "/")|
  {
    if gaps != [] {
      GapsAddLength(values[1..], gaps[1..]);
      assert gaps == [gaps[0]] + gaps[1..];
      assert values[0] + ("" + "/" + Join(values[1..], "/")) == values[0] + "/" + Join(values[1..], "/");
    }
  }

  /** A template matches what its route spells out, gaps included, if and only if the gaps are empty: what
      stands between a '}' and the slash before the next '{' is lost. */
  lemma GapsAreLost(shape: Shape, gaps: seq<string>, values: seq<string>)
    requires Spelled(shape, gaps) && Fits(shape, values)
    ensures Match(shape, shape.prefix + WithGaps(values, gaps) + shape.suffix) == Some(values) <==> NoGaps(gaps)
  {
    GapsAddLength(values, gaps);
    hide WithGaps, Match, Fits, NoGaps;
    MatchMeaning(shape, shape.prefix + WithGaps(values, gaps) + shape.suffix, values);
  }

  /** One such route. */
  lemma GapIsLost()
    ensures Compile("/a/{x}b/{y}") == Compile("/a/{x}/{y}") == Ok(Shape("/a/", ["x", "y"], ""))
  {
    var shape := Shape("/a/", ["x", "y"], "");
    assert ["b"][1..] == [] && [""][1..] == [] && ["x", "y"][1..] == ["y"];
    assert Body(["y"], []) == "{y}";
    assert Body(["x", "y"], ["b"]) == "{x}b/{y}" && Body(["x", "y"], [""]) == "{x}/{y}";
    assert Template(shape, ["b"]) == "/a/{x}b/{y}" && Template(shape, [""]) == "/a/{x}/{y}";
    CompileTemplate(shape, ["b"]);
    CompileTemplate(shape, [""]);
  }

  // ---------------------------------------------------------------- the table

  // In the order of the prefixes, as a `std::map` is walked.
  ghost predicate Ordered(table: seq<Entry>) {
    forall i, j :: 0 <= i < j < |table| ==>
      NotAfter(table[i].shape.prefix, table[j].shape.prefix) && table[i].shape.prefix != table[j].shape.prefix
  }

  // What compiling leaves in an entry.
  ghost predicate Compiled(table: seq<Entry>) {
    forall i :: 0 <= i < |table| ==> table[i].shape.names != []
  }

  predicate HasPrefix(table: seq<Entry>, prefix: string) {
    exists i :: 0 <= i < |table| && table[i].shape.prefix == prefix
  }

  function Put(table: seq<Entry>, entry: Entry): seq<Entry> {
    if table == [] || NotAfter(entry.shape.prefix, table[0].shape.prefix) then [entry] + table
    else [table[0]] + Put(table[1..], entry)
  }

  lemma {:induction false} PutAdds(table: seq<Entry>, entry: Entry)
    ensures multiset(Put(table, entry)) == multiset(table) + multiset{entry}
    ensures forall e :: e in Put(table, entry) <==> e == entry || e in table
    ensures Compiled(table) && entry.shape.names != [] ==> Compiled(Put(table, entry))
  {
    if table != [] {
      PutAdds(table[1..], entry);
      assert table == [table[0]] + table[1..];
    }
  }

  // Every entry of a table stands behind this prefix.
  ghost predicate Behind(prefix: string, table: seq<Entry>) {
    forall e :: e in table ==> NotAfter(prefix, e.shape.prefix) && e.shape.prefix != prefix
  }

  lemma OrderedCons(entry: Entry, table: seq<Entry>)
    ensures Ordered([entry] + table) <==> Ordered(table) && Behind(entry.shape.prefix, table)
  {
    var all := [entry] + table;
    if Ordered(all) {
      forall i, j | 0 <= i < j < |table|
        ensures NotAfter(table[i].shape.prefix, table[j].shape.prefix) && table[i].shape.prefix != table[j].shape.prefix
      {
        assert all[i + 1] == table[i] && all[j + 1] == table[j];
      }
      forall e | e in table
        ensures NotAfter(entry.shape.prefix, e.shape.prefix) && e.shape.prefix != entry.shape.prefix
      {
        var j :| 0 <= j < |table| && table[j] == e;
        assert all[0] == entry && all[j + 1] == e;
      }
    }
  }

  lemma {:induction false} PutKeepsOrder(table: seq<Entry>, entry: Entry)
    requires Ordered(table) && !HasPrefix(table, entry.shape.prefix)
    ensures Ordered(Put(table, entry))
  {
    var prefix := entry.shape.prefix;
    if table == [] {
    } else {
      assert table == [table[0]] + table[1..];
      OrderedCons(table[0], table[1..]);
      hide Ordered;
      if NotAfter(prefix, table[0].shape.prefix) {
        forall e | e in table
          ensures NotAfter(prefix, e.shape.prefix) && e.shape.prefix != prefix
        {
          if e in table[1..] {
            Transitive(prefix, table[0].shape.prefix, e.shape.prefix);
          }
        }
        OrderedCons(entry, table);
      } else {
        PutKeepsOrder(table[1..], entry);
        PutAdds(table[1..], entry);
        Total(prefix, table[0].shape.prefix);
        OrderedCons(table[0], Put(table[1..], entry));
      }
    }
  }

  datatype Matched = Matched(entry: Entry, values: seq<string>)

  function FirstMatch(table: seq<Entry>, target: string): Option<Matched> {
    if table == [] then None
    else
      match Match(table[0].shape, target)
      case Some(values) => Some(Matched(table[0], values))
      case None => FirstMatch(table[1..], target)
  }

  ghost predicate PrefixFree(table: seq<Entry>) {
    forall i, j :: 0 <= i < |table| && 0 <= j < |table| && i != j ==> !(table[i].shape.prefix <= table[j].shape.prefix)
  }

  // Entry `i` matches, with these values.
  ghost predicate Hits(table: seq<Entry>, i: nat, target: string, values: seq<string>) {
    i < |table| && Fits(table[i].shape, values) && Instance(table[i].shape, values) == target
  }

  /** Soundness and completeness of the walk over the table: it returns the first entry in prefix
      order of which the target is an instance, with the values of that instance, and nothing if and
      only if there is no such entry. */
  lemma {:induction false} FirstMatchMeaning(table: seq<Entry>, target: string)
    requires Compiled(table)
    ensures match FirstMatch(table, target)
            case None => forall i: nat, values :: !Hits(table, i, target, values)
            case Some(m) =>
              exists i: nat :: Hits(table, i, target, m.values) && table[i] == m.entry
                               && forall j: nat, values :: j < i ==> !Hits(table, j, target, values)
  {
    if table != [] {
      var rest := table[1..];
      FirstMatchMeaning(rest, target);
      forall values
        ensures Match(table[0].shape, target) == Some(values) <==> Hits(table, 0, target, values)
      {
        MatchMeaning(table[0].shape, target, values);
      }
      hide Match, Fits, Instance;
      assert forall i: nat, values :: i > 0 ==> Hits(table, i, target, values) == Hits(rest, i - 1, target, values);
      match Match(table[0].shape, target)
      case Some(values) =>
        assert Hits(table, 0, target, values);
      case None =>
        match FirstMatch(rest, target) {
          case None =>
          case Some(m) =>
            var i: nat :| Hits(rest, i, target, m.values) && rest[i] == m.entry
                          && forall j: nat, values :: j < i ==> !Hits(rest, j, target, values);
            assert Hits(table, i + 1, target, m.values) && table[i + 1] == m.entry;
        }
    }
  }

  lemma OneHit(table: seq<Entry>, target: string, i: nat, a: seq<string>, j: nat, b: seq<string>)
    requires PrefixFree(table) && Hits(table, i, target, a) && Hits(table, j, target, b)
    ensures i == j
  {
    var p, q := table[i].shape.prefix, table[j].shape.prefix;
    assert p == target[..|p|] && q == target[..|q|];
    assert p <= q || q <= p;
  }

  /** In a table without one prefix before another, every instance finds its own template and gives
      every value back. */
  lemma InstanceFound(table: seq<Entry>, i: nat, values: seq<string>)
    requires Compiled(table) && PrefixFree(table) && i < |table| && Fits(table[i].shape, values)
    ensures FirstMatch(table, Instance(table[i].shape, values)) == Some(Matched(table[i], values))
  {
    var target := Instance(table[i].shape, values);
    FirstMatchMeaning(table, target);
    assert Hits(table, i, target, values);
    hide Fits;
    match FirstMatch(table, target)
    case None =>
    case Some(m) =>
      var k: nat :| Hits(table, k, target, m.values) && table[k] == m.entry;
      OneHit(table, target, i, values, k, m.values);
      MatchMeaning(table[i].shape, target, values);
      MatchMeaning(table[i].shape, target, m.values);
  }

  /** As the walk is given the target without its trailing slashes, an instance is found if and only if
      it ends in none: a value that is empty at the very end is lost. */
  lemma FoundIfClosed(table: seq<Entry>, i: nat, values: seq<string>)
    requires Compiled(table) && PrefixFree(table) && i < |table| && Fits(table[i].shape, values)
    ensures var target := Instance(table[i].shape, values);
            FirstMatch(table, StripSlashes(target)) == Some(Matched(table[i], values)) <==> StripSlashes(target) == target
  {
    var target := Instance(table[i].shape, values);
    InstanceFound(table, i, values);
    FirstMatchMeaning(table, StripSlashes(target));
    hide FirstMatch, Fits;
  }

  /** So "/a/{x}" does not find its instance with an empty value. */
  lemma EmptyValueIsLost(rule: Rule)
    ensures var shape := Shape("/a/", ["x"], "");
            Instance(shape, [""]) == "/a/" && FirstMatch([Entry(shape, rule)], StripSlashes("/a/")) == None
  {
    assert "/a/"[..2] == "/a" && StripSlashes("/a") == "/a";
  }

  // ---------------------------------------------------------------- endpoint_t

  predicate StartsWithSlash(route: string) {
    route != "" && route[0] == '/'
  }

  // Exact routes are kept without trailing slashes.
  ghost predicate ExactKeys(exact: map<string, Rule>) {
    "" !in exact && forall route :: route in exact ==> StripSlashes(route) == route
  }

  class Endpoints {
    var exact: map<string, Rule>
    var special: seq<Entry>

    constructor ()
      ensures Valid() && exact == map[] && special == []
    {
      exact, special := map[], [];
    }

    ghost predicate Valid()
      reads this
    {
      Ordered(special) && Compiled(special) && ExactKeys(exact)
    }

    /** `add_endpoint`: the first rule of a route stays. */
    method AddEndpoint(route: string, rule: Rule) returns (r: Result<()>)
      requires Valid()
      modifies this`exact
      ensures Valid()
      ensures r == if route == "" || route[0] != '/' then Err(NoLeadingSlash)
                   else if OnlySlashes(route) then Err(Undefined) else Ok(())
      ensures exact == if r.Err? || StripSlashes(route) in old(exact) then old(exact)
                       else old(exact)[StripSlashes(route) := rule]
    {
      if !StartsWithSlash(route) {
        return Err(NoLeadingSlash);
      }
      if OnlySlashes(route) {
        return Err(Undefined);
      }
      var key := route;
      while key[|key| - 1] == '/'
        invariant key != "" && StripSlashes(key) == StripSlashes(route)
        decreases |key|
      {
        key := key[..|key| - 1];
      }
      if key !in exact {
        exact := exact[key := rule];
      }
      r := Ok(());
    }

    /** `add_special_endpoint`: a table that is ordered by prefix gains the compiled route, or nothing
        changes. */
    method AddSpecialEndpoint(route: string, rule: Rule) returns (r: Result<()>)
      requires Valid()
      modifies this`special
      ensures Valid()
      ensures r == if route == "" || route[0] != '/' then Err(NoLeadingSlash)
                   else match Compile(route)
                        case Err(e) => Err(e)
                        case Ok(shape) => if HasPrefix(old(special), shape.prefix) then Err(DuplicatePrefix) else Ok(())
      ensures r.Err? ==> special == old(special)
      ensures r.Ok? ==> multiset(special) == multiset(old(special)) + multiset{Entry(Compile(route).value, rule)}
    {
      if !StartsWithSlash(route) {
        return Err(NoLeadingSlash);
      }
      var shape := Compile(route);
      match shape
      case Err(e) =>
        r := Err(e);
      case Ok(shape) =>
        if HasPrefix(special, shape.prefix) {
          return Err(DuplicatePrefix);
        }
        PutKeepsOrder(special, Entry(shape, rule));
        PutAdds(special, Entry(shape, rule));
        hide Ordered, Put;
        special := Put(special, Entry(shape, rule));
        r := Ok(());
    }

    /** `get_special_rules` as the walk it is; the target must hold something but slashes. */
    method GetSpecialRules(target: string) returns (r: Option<Matched>)
      requires !OnlySlashes(target)
      ensures r == FirstMatch(special, StripSlashes(target))
    {
      var rest := target;
      while rest[|rest| - 1] == '/'
        invariant rest != "" && StripSlashes(rest) == StripSlashes(target)
        decreases |rest|
      {
        rest := rest[..|rest| - 1];
      }
      var i := 0;
      assert special[0..] == special;
      while i < |special|
        invariant 0 <= i <= |special|
        invariant FirstMatch(special, rest) == FirstMatch(special[i..], rest)
      {
        var values := Match(special[i].shape, rest);
        if values.Some? {
          return Some(Matched(special[i], values.value));
        }
        assert special[i..][1..] == special[i + 1..];
        i := i + 1;
      }
      r := None;
    }
  }
}
