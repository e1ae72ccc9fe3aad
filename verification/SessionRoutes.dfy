/** The routes of the session: `add_endpoint_interfaces` of http_stream/src/session.cpp. */
module SessionRoutes {
  import opened Options
  import opened Text
  import opened Routing
  import opened Requests

  // A template whose placeholders fill whole segments behind its own name.
  ghost predicate Registers(route: string, prefix: string, names: seq<string>) {
    StartsWithSlash(route) && OneSegment(prefix) && Compile(route) == Ok(Shape(prefix, names, ""))
  }

  predicate Name(name: string) {
    name != "" && Free(name, '}')
  }

  ghost predicate Segment(prefix: string) {
    OneSegment(prefix) && |prefix| > 2 && prefix[0] == '/' && Free(prefix, '{')
  }

  lemma OneNameTemplate(route: string, prefix: string, name: string)
    requires Segment(prefix) && Name(name) && route == prefix + "{" + name + "}"
    ensures Registers(route, prefix, [name])
  {
    var shape := Shape(prefix, [name], "");
    assert Body([name], []) == "{" + name + "}";
    assert Template(shape, []) == route;
    CompileTemplate(shape, []);
  }

  lemma TwoNameTemplate(route: string, prefix: string, a: string, b: string)
    requires Segment(prefix) && Name(a) && Name(b) && route == prefix + "{" + a + "}/{" + b + "}"
    ensures Registers(route, prefix, [a, b])
  {
    var shape := Shape(prefix, [a, b], "");
    assert [a, b][1..] == [b] && [""][1..] == [];
    assert Body([b], []) == "{" + b + "}";
    assert Body([a, b], [""]) == "{" + a + "}/{" + b + "}";
    assert Template(shape, [""]) == route;
    CompileTemplate(shape, [""]);
  }

  lemma ThreeNameTemplate(route: string, prefix: string, a: string, b: string, c: string)
    requires Segment(prefix) && Name(a) && Name(b) && Name(c)
    requires route == prefix + "{" + a + "}/{" + b + "}/{" + c + "}"
    ensures Registers(route, prefix, [a, b, c])
  {
    var shape := Shape(prefix, [a, b, c], "");
    assert [a, b, c][1..] == [b, c] && [b, c][1..] == [c] && ["", ""][1..] == [""] && [""][1..] == [];
    assert Body([c], []) == "{" + c + "}";
    assert Body([b, c], [""]) == "{" + b + "}/{" + c + "}";
    assert Body([a, b, c], ["", ""]) == "{" + a + "}/{" + b + "}/{" + c + "}";
    assert Template(shape, ["", ""]) == route;
    CompileTemplate(shape, ["", ""]);
  }

  lemma Segments()
    ensures Segment("/new_telegram_message/") && Segment("/new_telegram_registration_code/")
    ensures Segment("/new_telegram_registration_password/")
  {
  }

  lemma PriceSegments()
    ensures Segment("/list_price_tasks/") && Segment("/latest_price/") && Segment("/trading_pairs/")
  {
  }

  lemma Names()
    ensures Name("chat_id") && Name("number") && Name("code") && Name("password") && Name("user_id")
    ensures Name("exchange") && Name("trade") && Name("symbol")
  {
  }

  lemma MessageRoute()
    ensures Registers("/new_telegram_message/{chat_id}", "/new_telegram_message/", ["chat_id"])
  {
    Segments();
    Names();
    hide Registers, Segment, Name;
    OneNameTemplate("/new_telegram_message/{chat_id}", "/new_telegram_message/", "chat_id");
  }

  lemma CodeRoute()
    ensures Registers("/new_telegram_registration_code/{number}/{code}", "/new_telegram_registration_code/",
                      ["number", "code"])
  {
    Segments();
    Names();
    hide Registers, Segment, Name;
    TwoNameTemplate("/new_telegram_registration_code/{number}/{code}", "/new_telegram_registration_code/",
                    "number", "code");
  }

  lemma PasswordRoute()
    ensures Registers("/new_telegram_registration_password/{number}/{password}",
                      "/new_telegram_registration_password/", ["number", "password"])
  {
    Segments();
    Names();
    hide Registers, Segment, Name;
    TwoNameTemplate("/new_telegram_registration_password/{number}/{password}",
                    "/new_telegram_registration_password/", "number", "password");
  }

  lemma ListRoute()
    ensures Registers("/list_price_tasks/{user_id}", "/list_price_tasks/", ["user_id"])
  {
    PriceSegments();
    Names();
    hide Registers, Segment, Name;
    OneNameTemplate("/list_price_tasks/{user_id}", "/list_price_tasks/", "user_id");
  }

  lemma PriceRoute()
    ensures Registers("/latest_price/{exchange}/{trade}/{symbol}", "/latest_price/", ["exchange", "trade", "symbol"])
  {
    PriceSegments();
    Names();
    hide Registers, Segment, Name;
    ThreeNameTemplate("/latest_price/{exchange}/{trade}/{symbol}", "/latest_price/", "exchange", "trade", "symbol");
  }

  lemma PairsRoute()
    ensures Registers("/trading_pairs/{exchange}", "/trading_pairs/", ["exchange"])
  {
    PriceSegments();
    Names();
    hide Registers, Segment, Name;
    OneNameTemplate("/trading_pairs/{exchange}", "/trading_pairs/", "exchange");
  }

  ghost predicate DifferentPrefixes(entries: seq<Entry>) {
    forall i, j :: 0 <= i < j < |entries| ==> entries[i].shape.prefix != entries[j].shape.prefix
  }

  // What the call with this route and rule puts into the table.
  ghost predicate Adds(route: string, rule: Rule, entry: Entry) {
    Registers(route, entry.shape.prefix, entry.shape.names) && entry.shape.suffix == "" && entry.rule == rule
  }

  // One of the session's calls of `add_special_endpoint`, after `k` others.
  method AddTemplate(endpoints: Endpoints, ghost entries: seq<Entry>, ghost k: nat, route: string, rule: Rule)
    requires endpoints.Valid() && SessionTables(endpoints.exact, endpoints.special)
    requires k < |entries| && DifferentPrefixes(entries) && multiset(endpoints.special) == multiset(entries[..k])
    requires Adds(route, rule, entries[k])
    modifies endpoints`special
    ensures endpoints.Valid() && SessionTables(endpoints.exact, endpoints.special)
    ensures multiset(endpoints.special) == multiset(entries[..k + 1])
  {
    hide Compile, OneName, OneSegment, Ordered, ExactKeys;
    ghost var before := endpoints.special;
    PrefixIsNew(before, entries, k);
    var r := endpoints.AddSpecialEndpoint(route, rule);
    assert entries[..k + 1] == entries[..k] + [entries[k]];
    StillOneSegment(before, endpoints.special, entries[k]);
  }

  lemma PrefixIsNew(table: seq<Entry>, entries: seq<Entry>, k: nat)
    requires k < |entries| && DifferentPrefixes(entries) && multiset(table) == multiset(entries[..k])
    ensures !HasPrefix(table, entries[k].shape.prefix)
  {
    forall i | 0 <= i < |table|
      ensures table[i].shape.prefix != entries[k].shape.prefix
    {
      assert table[i] in multiset(entries[..k]);
      assert table[i] in entries[..k];
    }
  }

  lemma StillOneSegment(table: seq<Entry>, table': seq<Entry>, entry: Entry)
    requires multiset(table') == multiset(table) + multiset{entry} && OneSegment(entry.shape.prefix)
    requires forall i :: 0 <= i < |table| ==> OneSegment(table[i].shape.prefix)
    ensures forall i :: 0 <= i < |table'| ==> OneSegment(table'[i].shape.prefix)
  {
    hide OneSegment;
    forall i | 0 <= i < |table'|
      ensures OneSegment(table'[i].shape.prefix)
    {
      assert table'[i] in multiset(table');
      assert table'[i] == entry || table'[i] in table;
    }
  }

  // One of the session's calls of `add_endpoint`, whose route is new.
  method AddName(endpoints: Endpoints, route: string, rule: Rule)
    requires endpoints.Valid() && SessionTables(endpoints.exact, endpoints.special)
    requires ExactRoute(route) && route !in endpoints.exact
    modifies endpoints`exact
    ensures endpoints.Valid() && SessionTables(endpoints.exact, endpoints.special)
    ensures endpoints.exact == old(endpoints.exact)[route := rule]
  {
    hide OneName, OneSegment, Ordered, Compiled;
    var r := endpoints.AddEndpoint(route, rule);
  }

  ghost predicate ExactRoute(route: string) {
    OneName(route) && StartsWithSlash(route) && !OnlySlashes(route) && StripSlashes(route) == route
  }

  lemma ExactRoutes()
    ensures ExactRoute("/add_account_monitoring") && ExactRoute("/add_pricing_tasks")
    ensures ExactRoute("/stop_price_tasks") && ExactRoute("/all_price_tasks")
  {
  }

  const GET := ["GET"]
  const POST := ["POST"]
  const PUT := ["PUT"]

  const EXACT: map<string, Rule> := map[
    "/add_account_monitoring" := Rule(POST, 0),
    "/add_pricing_tasks" := Rule(POST, 1),
    "/stop_price_tasks" := Rule(POST, 2),
    "/all_price_tasks" := Rule(GET, 3)]

  // The entries of the special table, in the order in which they are added.
  const SPECIAL: seq<Entry> := [
    Entry(Shape("/new_telegram_message/", ["chat_id"], ""), Rule(POST, 4)),
    Entry(Shape("/new_telegram_registration_code/", ["number", "code"], ""), Rule(PUT, 5)),
    Entry(Shape("/new_telegram_registration_password/", ["number", "password"], ""), Rule(PUT, 6)),
    Entry(Shape("/list_price_tasks/", ["user_id"], ""), Rule(GET, 7)),
    Entry(Shape("/latest_price/", ["exchange", "trade", "symbol"], ""), Rule(GET, 8)),
    Entry(Shape("/trading_pairs/", ["exchange"], ""), Rule(GET, 9))]

  /** `add_endpoint_interfaces`: none of the ten calls throws, and the tables have the form for which every
      request is read back (`Requests.SessionRoundTrip`). */
  method AddEndpointInterfaces() returns (endpoints: Endpoints)
    ensures fresh(endpoints) && endpoints.Valid() && SessionTables(endpoints.exact, endpoints.special)
    ensures endpoints.exact == EXACT
    ensures multiset(endpoints.special) == multiset(SPECIAL)
  {
    endpoints := new Endpoints();
    hide SessionTables, Adds, Ordered, Compiled, ExactKeys;
    NoRoutes(endpoints.exact, endpoints.special);
    AddNames(endpoints);
    SessionAdds();
    PrefixesDiffer();
    AddTemplates(endpoints, SPECIAL);
  }

  lemma NoRoutes(exact: map<string, Rule>, special: seq<Entry>)
    requires exact == map[] && special == []
    ensures SessionTables(exact, special)
  {
  }

  method AddNames(endpoints: Endpoints)
    requires endpoints.Valid() && SessionTables(endpoints.exact, endpoints.special) && endpoints.exact == map[]
    modifies endpoints`exact
    ensures endpoints.Valid() && SessionTables(endpoints.exact, endpoints.special) && endpoints.special == old(endpoints.special)
    ensures endpoints.exact == EXACT
  {
    ExactRoutes();
    hide ExactRoute, SessionTables;
    AddName(endpoints, "/add_account_monitoring", Rule(POST, 0));
    AddName(endpoints, "/add_pricing_tasks", Rule(POST, 1));
    AddName(endpoints, "/stop_price_tasks", Rule(POST, 2));
    AddName(endpoints, "/all_price_tasks", Rule(GET, 3));
  }

  method AddTemplates(endpoints: Endpoints, ghost entries: seq<Entry>)
    requires endpoints.Valid() && SessionTables(endpoints.exact, endpoints.special) && endpoints.special == []
    requires |entries| == 6 && DifferentPrefixes(entries)
    requires Adds("/new_telegram_message/{chat_id}", Rule(POST, 4), entries[0])
    requires Adds("/new_telegram_registration_code/{number}/{code}", Rule(PUT, 5), entries[1])
    requires Adds("/new_telegram_registration_password/{number}/{password}", Rule(PUT, 6), entries[2])
    requires Adds("/list_price_tasks/{user_id}", Rule(GET, 7), entries[3])
    requires Adds("/latest_price/{exchange}/{trade}/{symbol}", Rule(GET, 8), entries[4])
    requires Adds("/trading_pairs/{exchange}", Rule(GET, 9), entries[5])
    modifies endpoints`special
    ensures endpoints.Valid() && SessionTables(endpoints.exact, endpoints.special)
    ensures multiset(endpoints.special) == multiset(entries)
  {
    hide Adds, SessionTables, DifferentPrefixes, Ordered, Compiled, ExactKeys;
    assert multiset(endpoints.special) == multiset(entries[..0]);
    AddTemplate(endpoints, entries, 0, "/new_telegram_message/{chat_id}", Rule(POST, 4));
    AddTemplate(endpoints, entries, 1, "/new_telegram_registration_code/{number}/{code}", Rule(PUT, 5));
    AddTemplate(endpoints, entries, 2, "/new_telegram_registration_password/{number}/{password}", Rule(PUT, 6));
    AddTemplate(endpoints, entries, 3, "/list_price_tasks/{user_id}", Rule(GET, 7));
    AddTemplate(endpoints, entries, 4, "/latest_price/{exchange}/{trade}/{symbol}", Rule(GET, 8));
    AddTemplate(endpoints, entries, 5, "/trading_pairs/{exchange}", Rule(GET, 9));
    assert entries[..6] == entries;
  }

  lemma SessionAdds()
    ensures Adds("/new_telegram_message/{chat_id}", Rule(POST, 4), SPECIAL[0])
    ensures Adds("/new_telegram_registration_code/{number}/{code}", Rule(PUT, 5), SPECIAL[1])
    ensures Adds("/new_telegram_registration_password/{number}/{password}", Rule(PUT, 6), SPECIAL[2])
    ensures Adds("/list_price_tasks/{user_id}", Rule(GET, 7), SPECIAL[3])
    ensures Adds("/latest_price/{exchange}/{trade}/{symbol}", Rule(GET, 8), SPECIAL[4])
    ensures Adds("/trading_pairs/{exchange}", Rule(GET, 9), SPECIAL[5])
  {
    hide Registers;
    MessageRoute();
    CodeRoute();
    PasswordRoute();
    ListRoute();
    PriceRoute();
    PairsRoute();
  }

  // The prefixes are even of different lengths.
  lemma PrefixesDiffer()
    ensures DifferentPrefixes(SPECIAL)
  {
    var n := [22, 32, 36, 18, 14, 15];
    assert |SPECIAL| == |n| && forall i :: 0 <= i < |n| ==> |SPECIAL[i].shape.prefix| == n[i];
  }
}
