/** Command lines with flags anywhere (parseMixed in internal/cli/cli.go), over Go's flag
    package as that function uses it. */
module MixedArgs {
  import opened Text

  /** Declared flags, true for boolean ones, and which values each accepts. */
  datatype FlagSet = FlagSet(kinds: map<string, bool>, accepts: (string, string) -> bool)

  datatype Assign = Assign(name: string, value: string)

  /** What fs.Parse leaves: the assignments in order and the arguments it never looked at. */
  datatype Parsed = Parsed(assigns: seq<Assign>, rest: seq<string>)

  predicate Dashed(a: string) { a != "" && a[0] == '-' }

  // ---------------------------------------------------------------- fs.Parse

  /** A flag argument after its dashes: name, and the value after the first '=' if any. */
  function NameOf(body: string): string { body[..Find(body, '=')] }

  function ValueOf(body: string): Option<string>
  {
    var i := Find(body, '=');
    if i == |body| then None else Some(body[i + 1..])
  }

  function Prepend(a: Assign, p: Option<Parsed>): Option<Parsed>
  {
    match p
    case None => None
    case Some(q) => Some(Parsed([a] + q.assigns, q.rest))
  }

  /** FlagSet.Parse: it stops without complaint at the first argument that is no flag. */
  function ParseFlags(fs: FlagSet, args: seq<string>): Option<Parsed>
    decreases |args|
  {
    if args == [] || |args[0]| < 2 || args[0][0] != '-' then Some(Parsed([], args))
    else if args[0] == "--" then Some(Parsed([], args[1..])) else
    var body := if args[0][1] == '-' then args[0][2..] else args[0][1..];
    if body == "" || body[0] == '-' || body[0] == '=' then None else
    var name, value := NameOf(body), ValueOf(body);
    if name !in fs.kinds then None
    else if fs.kinds[name] || value.Some? then
      var v := if value.Some? then value.value else "true";
      if fs.accepts(name, v) then Prepend(Assign(name, v), ParseFlags(fs, args[1..])) else None
    else if |args| < 2 || !fs.accepts(name, args[1]) then None
    else Prepend(Assign(name, args[1]), ParseFlags(fs, args[2..]))
  }

  // ---------------------------------------------------------------- parseMixed

  datatype Sorted = Sorted(flags: seq<string>, pos: seq<string>)

  function TrimDashes(a: string): string { if Dashed(a) then TrimDashes(a[1..]) else a }

  predicate TakesValue(fs: FlagSet, name: string) { name !in fs.kinds || !fs.kinds[name] }

  /** Whether the flag argument args[0] takes args[1] along. */
  predicate Attaches(fs: FlagSet, args: seq<string>)
    requires args != []
  {
    var body := TrimDashes(args[0]);
    && (ValueOf(body).None? || ValueOf(body).value == "")
    && TakesValue(fs, NameOf(body)) && |args| > 1 && !Dashed(args[1])
  }

  predicate IsFlag(a: string) { Dashed(a) && |a| > 1 }

  function Sort(fs: FlagSet, args: seq<string>): Sorted
    decreases |args|
  {
    if args == [] then Sorted([], [])
    else if args[0] == "--" then Sorted([], args[1..])
    else if !IsFlag(args[0]) then
      var s := Sort(fs, args[1..]);
      Sorted(s.flags, [args[0]] + s.pos)
    else
      var n := if Attaches(fs, args) then 2 else 1;
      var s := Sort(fs, args[n..]);
      Sorted(args[..n] + s.flags, s.pos)
  }

  datatype Mixed = Mixed(assigns: seq<Assign>, pos: seq<string>)

  /** None: parseMixed returns false. */
  function Outcome(fs: FlagSet, s: Sorted): Option<Mixed>
  {
    match ParseFlags(fs, s.flags)
    case None => None
    case Some(p) => Some(Mixed(p.assigns, s.pos))
  }

  lemma Assoc(a: seq<string>, b: seq<string>, c: seq<string>)
    ensures (a + b) + c == a + (b + c)
  {
  }

  method ParseMixed(fs: FlagSet, args: seq<string>) returns (r: Option<Mixed>)
    ensures r == Outcome(fs, Sort(fs, args))
  {
    var flags, pos: seq<string> := [], [];
    var i := 0;
    ghost var all := Sort(fs, args);
    while i < |args|
      invariant i <= |args|
      invariant all == Sorted(flags + Sort(fs, args[i..]).flags, pos + Sort(fs, args[i..]).pos)
    {
      var a := args[i];
      ghost var flagsBefore, posBefore := flags, pos;
      assert args[i..][1..] == args[i + 1..] && args[i..][0] == a;
      if a == "--" {
        pos := pos + args[i + 1..];
        i := |args|;
        break;
      }
      if IsFlag(a) {
        var body := TrimDashes(a);
        var value := ValueOf(body);
        flags := flags + [a];
        if (value.None? || value.value == "") && TakesValue(fs, NameOf(body))
           && i + 1 < |args| && !Dashed(args[i + 1])
        {
          assert Attaches(fs, args[i..]);
          assert args[i..][..2] == [a] + [args[i + 1]] && args[i..][2..] == args[i + 2..];
          i := i + 1;
          flags := flags + [args[i]];
          Assoc(flagsBefore, [a], [args[i]]);
          Assoc(flagsBefore, [a] + [args[i]], Sort(fs, args[i + 1..]).flags);
        } else {
          assert args[i..][..1] == [a];
          Assoc(flagsBefore, [a], Sort(fs, args[i + 1..]).flags);
        }
        i := i + 1;
        continue;
      }
      pos := pos + [a];
      i := i + 1;
      Assoc(posBefore, [a], Sort(fs, args[i..]).pos);
    }
    assert all == Sorted(flags, pos);
    var parsed := ParseFlags(fs, flags);
    if parsed.None? { return None; }
    r := Some(Mixed(parsed.value.assigns, pos));
  }

  // ---------------------------------------------------------------- command lines

  /** A positional, a boolean flag, --name=value, or --name value; `long` for two dashes. */
  datatype Item =
    | Positional(text: string)
    | Switch(long: bool, name: string)
    | Inline(long: bool, name: string, value: string)
    | Pair(long: bool, name: string, value: string)

  predicate GoodName(fs: FlagSet, name: string)
  {
    name in fs.kinds && name != "" && name[0] != '-' && '=' !in name
  }

  predicate Good(fs: FlagSet, it: Item)
  {
    match it
    case Positional(t) => !IsFlag(t)
    case Switch(_, n) => GoodName(fs, n) && fs.kinds[n]
    case Inline(_, n, v) => GoodName(fs, n)
    case Pair(_, n, _) => GoodName(fs, n) && !fs.kinds[n]
  }

  ghost predicate AllGood(fs: FlagSet, items: seq<Item>) { forall i | 0 <= i < |items| :: Good(fs, items[i]) }

  /** The sorting takes the flag argument to lack its value. */
  predicate Lacks(fs: FlagSet, a: string)
  {
    var body := TrimDashes(a);
    (ValueOf(body).None? || ValueOf(body).value == "") && TakesValue(fs, NameOf(body))
  }

  /** The item looks as if one more value were due: an empty `--name=`, or a separate value
      that itself starts with a dash. */
  predicate Awaits(fs: FlagSet, it: Item)
  {
    || (it.Inline? && it.value == "" && TakesValue(fs, it.name))
    || (it.Pair? && IsFlag(it.value) && it.value != "--" && Lacks(fs, it.value))
  }

  /** A separate value that ends the flags, or that the sorting takes for a positional. */
  predicate Misread(it: Item) { it.Pair? && it.value in {"-", "--"} }

  /** An item that awaits a value, with a positional right behind it. */
  predicate SwallowsHead(fs: FlagSet, items: seq<Item>)
  {
    |items| > 1 && Awaits(fs, items[0]) && items[1].Positional? && !Dashed(items[1].text)
  }

  /** Where the line goes wrong. */
  predicate Derails(fs: FlagSet, items: seq<Item>)
  {
    items != [] && (SwallowsHead(fs, items) || Misread(items[0]) || Derails(fs, items[1..]))
  }

  function Dashes(long: bool): string { if long then "--" else "-" }

  function Tokens(it: Item): seq<string>
  {
    match it
    case Positional(t) => [t]
    case Switch(l, n) => [Dashes(l) + n]
    case Inline(l, n, v) => [Dashes(l) + (n + "=" + v)]
    case Pair(l, n, v) => [Dashes(l) + n, v]
  }

  function Render(items: seq<Item>): seq<string>
  {
    if items == [] then [] else Tokens(items[0]) + Render(items[1..])
  }

  function FlagsOf(items: seq<Item>): seq<Item>
  {
    if items == [] then []
    else (if items[0].Positional? then [] else [items[0]]) + FlagsOf(items[1..])
  }

  function Positionals(items: seq<Item>): seq<string>
  {
    if items == [] then []
    else (if items[0].Positional? then [items[0].text] else []) + Positionals(items[1..])
  }

  function AssignOf(it: Item): Assign
    requires !it.Positional?
  {
    if it.Switch? then Assign(it.name, "true") else Assign(it.name, it.value)
  }

  /** The assignments the flags stand for, unless a value is refused. */
  function Assigned(fs: FlagSet, items: seq<Item>): Option<seq<Assign>>
  {
    if items == [] then Some([])
    else if items[0].Positional? then Assigned(fs, items[1..]) else
    var a := AssignOf(items[0]);
    match Assigned(fs, items[1..])
    case None => None
    case Some(rest) => if fs.accepts(a.name, a.value) then Some([a] + rest) else None
  }

  /** What a command line is meant to say. */
  function Intended(fs: FlagSet, items: seq<Item>, tail: seq<string>): Option<Mixed>
  {
    match Assigned(fs, items)
    case None => None
    case Some(assigns) => Some(Mixed(assigns, Positionals(items) + After(tail)))
  }

  // ---------------------------------------------------------------- flag texts

  lemma {:induction false} TrimDashesOff(long: bool, body: string)
    requires body != "" && body[0] != '-'
    ensures TrimDashes(Dashes(long) + body) == body
  {
    assert TrimDashes(body) == body;
    assert ("-" + body)[1..] == body;
    assert TrimDashes("-" + body) == body;
    assert ("--" + body)[1..] == "-" + body;
    assert TrimDashes("--" + body) == body;
  }

  lemma BodyParts(n: string, v: string)
    requires '=' !in n
    ensures NameOf(n) == n && ValueOf(n) == None
    ensures NameOf(n + "=" + v) == n && ValueOf(n + "=" + v) == Some(v)
  {
    FindNone(n, '=');
    FindAt(n, '=', v);
    assert n + "=" + v == n + ['='] + v;
    assert (n + ['='] + v)[..|n|] == n && (n + ['='] + v)[|n| + 1..] == v;
  }

  /** Dashes are stripped the same way by both parsers. */
  lemma FlagText(long: bool, body: string)
    requires body != "" && body[0] != '-'
    ensures var a := Dashes(long) + body;
            && IsFlag(a) && a != "--" && TrimDashes(a) == body
            && (if a[1] == '-' then a[2..] else a[1..]) == body
  {
    TrimDashesOff(long, body);
    var a := Dashes(long) + body;
    assert a[1..] == (if long then "-" + body else body);
    assert long ==> a[2] == body[0];
  }

  lemma NoLeadingEquals(n: string, more: string)
    requires n != "" && '=' !in n
    ensures (n + more)[0] == n[0] && n[0] != '='
  {
    assert n[0] in n;
  }

  // ---------------------------------------------------------------- sorting

  predicate Tail(tail: seq<string>) { tail == [] || tail[0] == "--" }

  function After(tail: seq<string>): seq<string> { if tail == [] then [] else tail[1..] }

  /** Whether what follows a flag is taken along by it. */
  predicate Taken(rest: seq<string>) { rest != [] && !Dashed(rest[0]) }

  lemma SortItem(fs: FlagSet, it: Item, rest: seq<string>)
    requires Good(fs, it) && !Misread(it) && !(Awaits(fs, it) && Taken(rest))
    ensures var s := Sort(fs, rest);
            Sort(fs, Tokens(it) + rest)
            == if it.Positional? then Sorted(s.flags, [it.text] + s.pos)
               else Sorted(Tokens(it) + s.flags, s.pos)
  {
    var args := Tokens(it) + rest;
    match it
    case Positional(t) =>
      assert args[1..] == rest;
    case Switch(l, n) =>
      FlagText(l, n);
      BodyParts(n, "");
      assert args[1..] == rest && args[..1] == Tokens(it);
    case Inline(l, n, v) =>
      FlagText(l, n + "=" + v);
      BodyParts(n, v);
      assert args[1..] == rest && args[..1] == Tokens(it);
    case Pair(l, n, v) => SortPair(fs, it, rest);
  }

  lemma SortPair(fs: FlagSet, it: Item, rest: seq<string>)
    requires Good(fs, it) && it.Pair? && !Misread(it) && !(Awaits(fs, it) && Taken(rest))
    ensures var s := Sort(fs, rest); Sort(fs, Tokens(it) + rest) == Sorted(Tokens(it) + s.flags, s.pos)
  {
    var args, v := Tokens(it) + rest, it.value;
    FlagText(it.long, it.name);
    BodyParts(it.name, "");
    if Dashed(v) {
      SortDashed(fs, it, rest);
      assert |v| == 1 ==> v == "-";
      SortSecond(fs, v, rest);
      Assoc([args[0]], [v], Sort(fs, rest).flags);
    } else {
      assert args[2..] == rest && args[..2] == Tokens(it);
    }
  }

  /** A flag is not given a value that starts with a dash. */
  lemma SortDashed(fs: FlagSet, it: Item, rest: seq<string>)
    requires Good(fs, it) && it.Pair? && Dashed(it.value)
    ensures var s := Sort(fs, [it.value] + rest);
            Sort(fs, Tokens(it) + rest) == Sorted([Tokens(it)[0]] + s.flags, s.pos)
  {
    var args := Tokens(it) + rest;
    FlagText(it.long, it.name);
    BodyParts(it.name, "");
    assert args[1..] == [it.value] + rest && args[..1] == [Tokens(it)[0]];
  }

  /** A flag argument nothing is attached to. */
  lemma SortSecond(fs: FlagSet, v: string, rest: seq<string>)
    requires IsFlag(v) && v != "--" && !(Lacks(fs, v) && Taken(rest))
    ensures var s := Sort(fs, rest); Sort(fs, [v] + rest) == Sorted([v] + s.flags, s.pos)
  {
    var args := [v] + rest;
    assert args[1..] == rest && args[..1] == [v];
  }

  /** A flag argument that takes the next one along. */
  lemma SortTaking(fs: FlagSet, v: string, t: string, rest: seq<string>)
    requires IsFlag(v) && v != "--" && Lacks(fs, v) && !Dashed(t)
    ensures var s := Sort(fs, rest); Sort(fs, [v] + ([t] + rest)) == Sorted([v] + ([t] + s.flags), s.pos)
  {
    var args := [v] + ([t] + rest);
    assert args[1] == t && args[2..] == rest && args[..2] == [v] + [t];
    Assoc([v], [t], Sort(fs, rest).flags);
  }

  lemma SortSwallowing(fs: FlagSet, it: Item, t: string, rest: seq<string>)
    requires Good(fs, it) && Awaits(fs, it) && !Dashed(t)
    ensures var s := Sort(fs, rest);
            Sort(fs, Tokens(it) + ([t] + rest)) == Sorted(Tokens(it) + ([t] + s.flags), s.pos)
  {
    if it.Inline? {
      FlagText(it.long, it.name + "=" + it.value);
      BodyParts(it.name, it.value);
      SortTaking(fs, Tokens(it)[0], t, rest);
    } else {
      SwallowingPair(fs, it, t, rest);
    }
  }

  lemma SwallowingPair(fs: FlagSet, it: Item, t: string, rest: seq<string>)
    requires Good(fs, it) && Awaits(fs, it) && it.Pair? && !Dashed(t)
    ensures var s := Sort(fs, rest);
            Sort(fs, Tokens(it) + ([t] + rest)) == Sorted(Tokens(it) + ([t] + s.flags), s.pos)
  {
    SortDashed(fs, it, [t] + rest);
    SortTaking(fs, it.value, t, rest);
    AssocPair(Tokens(it)[0], it.value, [t] + Sort(fs, rest).flags);
  }

  lemma AssocPair(a: string, v: string, more: seq<string>)
    ensures [a] + ([v] + more) == [a, v] + more
  {
  }

  /** Nothing that follows the head is taken by it, unless the line swallows there. */
  lemma NotTaken(fs: FlagSet, items: seq<Item>, tail: seq<string>)
    requires AllGood(fs, items) && !Taken(tail) && items != [] && !SwallowsHead(fs, items)
    ensures !(Awaits(fs, items[0]) && Taken(Render(items[1..]) + tail))
  {
    var rest := Render(items[1..]) + tail;
    if |items| > 1 {
      assert items[1..][0] == items[1] && Good(fs, items[1]);
      assert rest[0] == Tokens(items[1])[0];
    } else {
      assert rest == tail;
    }
  }

  lemma RenderCons(it: Item, more: seq<Item>)
    ensures Render([it] + more) == Tokens(it) + Render(more)
  {
    assert ([it] + more)[1..] == more;
  }

  lemma FlagsCons(items: seq<Item>)
    requires items != []
    ensures FlagsOf(items) == (if items[0].Positional? then [] else [items[0]]) + FlagsOf(items[1..])
    ensures !items[0].Positional? ==> Render(FlagsOf(items)) == Tokens(items[0]) + Render(FlagsOf(items[1..]))
    ensures items[0].Positional? ==> FlagsOf(items) == FlagsOf(items[1..])
  {
    RenderCons(items[0], FlagsOf(items[1..]));
  }

  lemma AssignedCons(fs: FlagSet, it: Item, more: seq<Item>)
    requires !it.Positional?
    ensures var a := AssignOf(it);
            Assigned(fs, [it] + more)
            == match Assigned(fs, more)
               case None => None
               case Some(rest) => if fs.accepts(a.name, a.value) then Some([a] + rest) else None
  {
    assert ([it] + more)[1..] == more;
  }

  lemma RenderTail(items: seq<Item>, tail: seq<string>)
    requires items != []
    ensures Render(items) + tail == Tokens(items[0]) + (Render(items[1..]) + tail)
  {
    Assoc(Tokens(items[0]), Render(items[1..]), tail);
  }

  lemma PositionalsCons(items: seq<Item>, after: seq<string>)
    requires items != [] && items[0].Positional?
    ensures Positionals(items) + after == [items[0].text] + (Positionals(items[1..]) + after)
  {
    Assoc([items[0].text], Positionals(items[1..]), after);
  }

  lemma PositionalsSkip(items: seq<Item>)
    requires items != [] && !items[0].Positional?
    ensures Positionals(items) == Positionals(items[1..])
  {
    assert [] + Positionals(items[1..]) == Positionals(items[1..]);
  }

  /** The sorting of one more item, given that of the rest. */
  lemma SortStep(fs: FlagSet, items: seq<Item>, tail: seq<string>)
    requires AllGood(fs, items) && Tail(tail) && items != [] && !SwallowsHead(fs, items) && !Misread(items[0])
    requires Sort(fs, Render(items[1..]) + tail)
             == Sorted(Render(FlagsOf(items[1..])), Positionals(items[1..]) + After(tail))
    ensures Sort(fs, Render(items) + tail) == Sorted(Render(FlagsOf(items)), Positionals(items) + After(tail))
  {
    NotTaken(fs, items, tail);
    SortItem(fs, items[0], Render(items[1..]) + tail);
    RenderTail(items, tail);
    FlagsCons(items);
    if items[0].Positional? {
      PositionalsCons(items, After(tail));
    } else {
      PositionalsSkip(items);
    }
  }

  lemma {:induction false} SortRendered(fs: FlagSet, items: seq<Item>, tail: seq<string>)
    requires AllGood(fs, items) && Tail(tail) && !Derails(fs, items)
    ensures Sort(fs, Render(items) + tail) == Sorted(Render(FlagsOf(items)), Positionals(items) + After(tail))
  {
    if items == [] {
      assert Render(items) + tail == tail;
    } else {
      SortRendered(fs, items[1..], tail);
      SortStep(fs, items, tail);
    }
  }

  // ---------------------------------------------------------------- parsing

  lemma ParseSwitch(fs: FlagSet, it: Item, rest: seq<string>)
    requires Good(fs, it) && it.Switch?
    ensures ParseFlags(fs, Tokens(it) + rest)
            == if fs.accepts(it.name, "true") then Prepend(Assign(it.name, "true"), ParseFlags(fs, rest)) else None
  {
    FlagText(it.long, it.name);
    BodyParts(it.name, "");
    NoLeadingEquals(it.name, "");
    assert (Tokens(it) + rest)[1..] == rest;
  }

  lemma ParseInline(fs: FlagSet, it: Item, rest: seq<string>)
    requires Good(fs, it) && it.Inline?
    ensures ParseFlags(fs, Tokens(it) + rest)
            == if fs.accepts(it.name, it.value) then Prepend(Assign(it.name, it.value), ParseFlags(fs, rest)) else None
  {
    var body := it.name + "=" + it.value;
    assert body == it.name + ("=" + it.value);
    NoLeadingEquals(it.name, "=" + it.value);
    FlagText(it.long, body);
    BodyParts(it.name, it.value);
    assert (Tokens(it) + rest)[1..] == rest;
  }

  lemma ParsePair(fs: FlagSet, it: Item, rest: seq<string>)
    requires Good(fs, it) && it.Pair?
    ensures ParseFlags(fs, Tokens(it) + rest)
            == if fs.accepts(it.name, it.value) then Prepend(Assign(it.name, it.value), ParseFlags(fs, rest)) else None
  {
    FlagText(it.long, it.name);
    BodyParts(it.name, "");
    NoLeadingEquals(it.name, "");
    var args := Tokens(it) + rest;
    assert args[2..] == rest && args[1] == it.value;
  }

  lemma ParseItem(fs: FlagSet, it: Item, rest: seq<string>)
    requires Good(fs, it) && !it.Positional?
    ensures var a := AssignOf(it);
            ParseFlags(fs, Tokens(it) + rest)
            == if fs.accepts(a.name, a.value) then Prepend(a, ParseFlags(fs, rest)) else None
  {
    match it
    case Switch(_, _) => ParseSwitch(fs, it, rest);
    case Inline(_, _, _) => ParseInline(fs, it, rest);
    case Pair(_, _, _) => ParsePair(fs, it, rest);
  }

  /** fs.Parse consumes every flag it is given: nothing is left over in silence. */
  lemma {:induction false} ParseRendered(fs: FlagSet, items: seq<Item>)
    requires AllGood(fs, items)
    ensures ParseFlags(fs, Render(FlagsOf(items)))
            == match Assigned(fs, items)
               case None => None
               case Some(assigns) => Some(Parsed(assigns, []))
  {
    if items != [] {
      ParseRendered(fs, items[1..]);
      FlagsCons(items);
      if !items[0].Positional? {
        ParseItem(fs, items[0], Render(FlagsOf(items[1..])));
      }
    }
  }

  /** Main result: on a line that does not derail the outcome is the flags' assignments in
      order and the positionals in order, whatever the interleaving, with everything after
      `--` positional, and fs.Parse leaves no argument unread. */
  lemma MixedExact(fs: FlagSet, items: seq<Item>, tail: seq<string>)
    requires AllGood(fs, items) && Tail(tail) && !Derails(fs, items)
    ensures Outcome(fs, Sort(fs, Render(items) + tail)) == Intended(fs, items, tail)
    ensures var p := ParseFlags(fs, Sort(fs, Render(items) + tail).flags);
            p.Some? ==> p.value.rest == []
  {
    SortRendered(fs, items, tail);
    ParseRendered(fs, items);
  }

  // ---------------------------------------------------------------- what is refused

  /** An argument without a leading dash is a positional, and so is a single dash. */
  lemma PositionalIff(a: string)
    ensures IsFlag(a) <==> a != "-" && "-" <= a
  {
  }

  /** What fs.Parse refuses it refuses behind any number of good items too. */
  lemma {:induction false} RefusedBehind(fs: FlagSet, items: seq<Item>, more: seq<string>)
    requires AllGood(fs, items) && !Derails(fs, items) && !Taken(more)
    requires ParseFlags(fs, Sort(fs, more).flags) == None
    ensures Outcome(fs, Sort(fs, Render(items) + more)) == None
    decreases |items|
  {
    if items == [] {
      assert Render(items) + more == more;
    } else {
      var it, rest := items[0], Render(items[1..]) + more;
      RenderTail(items, more);
      NotTaken(fs, items, more);
      SortItem(fs, it, rest);
      RefusedBehind(fs, items[1..], more);
      if !it.Positional? {
        ParseItem(fs, it, Sort(fs, rest).flags);
      }
    }
  }

  lemma FlagStays(fs: FlagSet, a: string, rest: seq<string>)
    requires IsFlag(a) && a != "--"
    ensures var flags := Sort(fs, [a] + rest).flags; flags != [] && flags[0] == a
  {
  }

  lemma UnknownStops(fs: FlagSet, long: bool, name: string, value: Option<string>, flags: seq<string>)
    requires name !in fs.kinds && name != "" && name[0] != '-' && '=' !in name
    requires flags != [] && flags[0] == Dashes(long) + (if value.Some? then name + "=" + value.value else name)
    ensures ParseFlags(fs, flags) == None
  {
    var body := if value.Some? then name + "=" + value.value else name;
    FlagText(long, body);
    BodyParts(name, if value.Some? then value.value else "");
  }

  /** A flag nobody declared makes the whole line fail, wherever it stands and with whatever
      behind it. */
  lemma UnknownFlagRefused(fs: FlagSet, items: seq<Item>, long: bool, name: string, value: Option<string>,
                           rest: seq<string>)
    requires AllGood(fs, items) && !Derails(fs, items)
    requires name !in fs.kinds && name != "" && name[0] != '-' && '=' !in name
    ensures var flag := Dashes(long) + (if value.Some? then name + "=" + value.value else name);
            Outcome(fs, Sort(fs, Render(items) + ([flag] + rest))) == None
  {
    var body := if value.Some? then name + "=" + value.value else name;
    var flag := Dashes(long) + body;
    FlagText(long, body);
    FlagStays(fs, flag, rest);
    UnknownStops(fs, long, name, value, Sort(fs, [flag] + rest).flags);
    RefusedBehind(fs, items, [flag] + rest);
  }

  /** So does a flag that ends its line without the value it needs. */
  lemma MissingValueRefused(fs: FlagSet, items: seq<Item>, long: bool, name: string, tail: seq<string>)
    requires AllGood(fs, items) && !Derails(fs, items) && Tail(tail)
    requires GoodName(fs, name) && !fs.kinds[name]
    ensures Outcome(fs, Sort(fs, Render(items) + ([Dashes(long) + name] + tail))) == None
  {
    var more := [Dashes(long) + name] + tail;
    FlagText(long, name);
    BodyParts(name, "");
    SortSecond(fs, Dashes(long) + name, tail);
    assert Sort(fs, tail).flags == [];
    RefusedBehind(fs, items, more);
  }

  // ---------------------------------------------------------------- flags first

  function Texts(pos: seq<string>): seq<Item>
  {
    if pos == [] then [] else [Positional(pos[0])] + Texts(pos[1..])
  }

  lemma {:induction false} TextsAlone(fs: FlagSet, pos: seq<string>)
    ensures Positionals(Texts(pos)) == pos && Assigned(fs, Texts(pos)) == Some([]) && Render(Texts(pos)) == pos
  {
    if pos != [] {
      var it, more := Positional(pos[0]), Texts(pos[1..]);
      TextsAlone(fs, pos[1..]);
      assert Texts(pos) == [it] + more && ([it] + more)[1..] == more;
      RenderCons(it, more);
      assert [pos[0]] + pos[1..] == pos;
    }
  }

  lemma {:induction false} FlagsThenTexts(fs: FlagSet, flags: seq<Item>, texts: seq<Item>)
    requires forall i | 0 <= i < |flags| :: !flags[i].Positional?
    requires Assigned(fs, texts) == Some([])
    ensures Positionals(flags + texts) == Positionals(texts)
    ensures Assigned(fs, flags + texts) == Assigned(fs, flags)
    ensures Render(flags + texts) == Render(flags) + Render(texts)
  {
    if flags == [] {
      assert flags + texts == texts;
    } else {
      var it, more := flags[0], flags[1..] + texts;
      FlagsThenTexts(fs, flags[1..], texts);
      assert flags + texts == [it] + more && ([it] + more)[1..] == more && [it] + flags[1..] == flags;
      AssignedCons(fs, it, more);
      AssignedCons(fs, it, flags[1..]);
      RenderCons(it, more);
      RenderCons(it, flags[1..]);
    }
  }

  lemma {:induction false} FlagsFacts(fs: FlagSet, items: seq<Item>)
    requires AllGood(fs, items)
    ensures forall i | 0 <= i < |FlagsOf(items)| :: !FlagsOf(items)[i].Positional? && Good(fs, FlagsOf(items)[i])
    ensures forall i | 0 <= i < |Positionals(items)| :: !IsFlag(Positionals(items)[i])
    ensures Assigned(fs, FlagsOf(items)) == Assigned(fs, items)
  {
    if items != [] {
      FlagsFacts(fs, items[1..]);
      FlagsCons(items);
      if !items[0].Positional? {
        AssignedCons(fs, items[0], FlagsOf(items[1..]));
      }
    }
  }

  lemma {:induction false} TextsGood(fs: FlagSet, pos: seq<string>)
    requires forall i | 0 <= i < |pos| :: !IsFlag(pos[i])
    ensures AllGood(fs, Texts(pos)) && |Texts(pos)| == |pos|
  {
    if pos != [] { TextsGood(fs, pos[1..]); }
  }

  /** Main result: any interleaving parses like the line with all flags first. */
  lemma SameAsFlagsFirst(fs: FlagSet, items: seq<Item>)
    requires AllGood(fs, items)
    requires !Derails(fs, items) && !Derails(fs, FlagsOf(items) + Texts(Positionals(items)))
    ensures Outcome(fs, Sort(fs, Render(items)))
            == Outcome(fs, Sort(fs, Render(FlagsOf(items)) + Positionals(items)))
  {
    var flags, pos := FlagsOf(items), Positionals(items);
    FlagsFacts(fs, items);
    TextsGood(fs, pos);
    TextsAlone(fs, pos);
    FlagsThenTexts(fs, flags, Texts(pos));
    assert AllGood(fs, flags + Texts(pos));
    MixedExact(fs, items, []);
    MixedExact(fs, flags + Texts(pos), []);
    assert Render(items) + [] == Render(items);
    assert Render(flags + Texts(pos)) + [] == Render(flags + Texts(pos));
  }

  // ---------------------------------------------------------------- where it fails

  /** One more item in front, where nothing goes wrong, goes in front of the outcome. */
  function Before(it: Item, r: Option<Mixed>): Option<Mixed>
  {
    match r
    case None => None
    case Some(m) =>
      if it.Positional? then Some(Mixed(m.assigns, [it.text] + m.pos))
      else Some(Mixed([AssignOf(it)] + m.assigns, m.pos))
  }

  lemma OutcomeStep(fs: FlagSet, items: seq<Item>, tail: seq<string>)
    requires AllGood(fs, items) && Tail(tail) && items != [] && !SwallowsHead(fs, items) && !Misread(items[0])
    requires !items[0].Positional? ==> fs.accepts(AssignOf(items[0]).name, AssignOf(items[0]).value)
    ensures Outcome(fs, Sort(fs, Render(items) + tail))
            == Before(items[0], Outcome(fs, Sort(fs, Render(items[1..]) + tail)))
  {
    var it, rest := items[0], Render(items[1..]) + tail;
    RenderTail(items, tail);
    NotTaken(fs, items, tail);
    SortItem(fs, it, rest);
    if !it.Positional? {
      ParseItem(fs, it, Sort(fs, rest).flags);
    }
  }

  lemma IntendedStep(fs: FlagSet, items: seq<Item>, tail: seq<string>)
    requires items != [] && Assigned(fs, items).Some?
    ensures Assigned(fs, items[1..]).Some?
    ensures !items[0].Positional? ==> fs.accepts(AssignOf(items[0]).name, AssignOf(items[0]).value)
    ensures Intended(fs, items, tail) == Before(items[0], Intended(fs, items[1..], tail))
  {
    if items[0].Positional? {
      PositionalsCons(items, After(tail));
    } else {
      PositionalsSkip(items);
    }
  }

  /** Where a swallowing item leads: fs.Parse stops at the positional it took along. */
  lemma SwallowedHead(fs: FlagSet, it: Item, t: string, rest: seq<string>)
    requires Good(fs, it) && Awaits(fs, it) && !Dashed(t)
    requires fs.accepts(AssignOf(it).name, AssignOf(it).value)
    ensures var s := Sort(fs, Tokens(it) + ([t] + rest));
            && ParseFlags(fs, s.flags) == Some(Parsed([AssignOf(it)], [t] + Sort(fs, rest).flags))
            && Outcome(fs, s) == Some(Mixed([AssignOf(it)], Sort(fs, rest).pos))
  {
    var left := [t] + Sort(fs, rest).flags;
    SortSwallowing(fs, it, t, rest);
    ParseItem(fs, it, left);
    assert left[0] == t && ParseFlags(fs, left) == Some(Parsed([], left));
    assert [AssignOf(it)] + [] == [AssignOf(it)];
  }

  /** Main result: what survives when a line swallows. The flags up to and with the swallowing
      one are set; the positional it took and every later flag are lost without an error. */
  lemma {:induction false} SwallowedOutcome(fs: FlagSet, before: seq<Item>, it: Item, t: string,
                                            after: seq<Item>, tail: seq<string>)
    requires AllGood(fs, before + [it, Positional(t)] + after) && Tail(tail)
    requires !Derails(fs, before + [it]) && Awaits(fs, it) && !Dashed(t)
    requires Assigned(fs, before + [it]).Some?
    ensures Outcome(fs, Sort(fs, Render(before + [it, Positional(t)] + after) + tail))
            == Some(Mixed(Assigned(fs, before + [it]).value,
                          Positionals(before) + Sort(fs, Render(after) + tail).pos))
    decreases |before|
  {
    var items := before + [it, Positional(t)] + after;
    if before == [] {
      assert items == [it] + ([Positional(t)] + after) && [] + [it] == [it];
      assert items[0] == it && items[1..] == [Positional(t)] + after && items[1..][1..] == after;
      RenderTail(items, tail);
      RenderTail(items[1..], tail);
      SwallowedHead(fs, it, t, Render(after) + tail);
      assert [it][1..] == [] && [AssignOf(it)] + [] == [AssignOf(it)];
      assert [] + Sort(fs, Render(after) + tail).pos == Sort(fs, Render(after) + tail).pos;
    } else {
      var some := before + [it];
      assert items[0] == before[0] == some[0];
      assert items[1..] == before[1..] + [it, Positional(t)] + after;
      assert some[1..] == before[1..] + [it];
      IntendedStep(fs, some, []);
      SwallowedOutcome(fs, before[1..], it, t, after, tail);
      assert items[1] == some[1];
      OutcomeStep(fs, items, tail);
      if before[0].Positional? {
        PositionalsCons(before, Sort(fs, Render(after) + tail).pos);
      } else {
        PositionalsSkip(before);
      }
    }
  }

  lemma {:induction false} FlaglessRuns(fs: FlagSet, items: seq<Item>)
    requires Assigned(fs, items) == Some([])
    ensures !Derails(fs, items)
  {
    if items != [] {
      FlaglessRuns(fs, items[1..]);
    }
  }

  lemma SwallowingDiffers(fs: FlagSet, items: seq<Item>, tail: seq<string>)
    requires AllGood(fs, items) && Tail(tail) && SwallowsHead(fs, items) && Assigned(fs, items).Some?
    ensures Outcome(fs, Sort(fs, Render(items) + tail)) != Intended(fs, items, tail)
  {
    var it, t, more := items[0], items[1].text, items[2..];
    assert items[1..][0] == items[1] && items[1..][1..] == more;
    RenderTail(items, tail);
    RenderTail(items[1..], tail);
    IntendedStep(fs, items, tail);
    IntendedStep(fs, items[1..], tail);
    SwallowedHead(fs, it, t, Render(more) + tail);
    if Assigned(fs, more).value == [] {
      FlaglessRuns(fs, more);
      SortRendered(fs, more, tail);
    }
  }

  /** What the sorting hands to fs.Parse starts with a flag. */
  lemma {:induction false} FlagsStart(fs: FlagSet, args: seq<string>)
    ensures Sort(fs, args).flags != [] ==> IsFlag(Sort(fs, args).flags[0])
    decreases |args|
  {
    if args != [] && args[0] != "--" && !IsFlag(args[0]) {
      FlagsStart(fs, args[1..]);
    }
  }

  /** `--name -` and `--name --`: fs.Parse never sees the value that was meant. */
  lemma MisreadDiffers(fs: FlagSet, items: seq<Item>, tail: seq<string>)
    requires AllGood(fs, items) && Tail(tail) && items != [] && Misread(items[0]) && Assigned(fs, items).Some?
    ensures Outcome(fs, Sort(fs, Render(items) + tail)) != Intended(fs, items, tail)
  {
    var it, rest := items[0], Render(items[1..]) + tail;
    RenderTail(items, tail);
    IntendedStep(fs, items, tail);
    SortDashed(fs, it, rest);
    var args := [it.value] + rest;
    assert args[1..] == rest;
    if it.value == "--" {
      assert Sort(fs, args).flags == [];
      PairAlone(fs, it, []);
    } else {
      assert Sort(fs, args).flags == Sort(fs, rest).flags;
      FlagsStart(fs, rest);
      PairAlone(fs, it, Sort(fs, rest).flags);
    }
  }

  /** fs.Parse gives the flag whatever comes next. */
  lemma PairAlone(fs: FlagSet, it: Item, flags: seq<string>)
    requires Good(fs, it) && it.Pair?
    ensures var p := ParseFlags(fs, [Tokens(it)[0]] + flags);
            p.Some? ==> flags != [] && p.value.assigns != [] && p.value.assigns[0] == Assign(it.name, flags[0])
  {
    if flags == [] {
      FlagText(it.long, it.name);
      BodyParts(it.name, "");
      NoLeadingEquals(it.name, "");
      assert [Tokens(it)[0]] + flags == [Tokens(it)[0]];
    } else {
      var other := Pair(it.long, it.name, flags[0]);
      assert [Tokens(it)[0]] + flags == Tokens(other) + flags[1..];
      ParsePair(fs, other, flags[1..]);
    }
  }

  lemma {:induction false} DerailedDiffers(fs: FlagSet, items: seq<Item>, tail: seq<string>)
    requires AllGood(fs, items) && Tail(tail) && Derails(fs, items) && Assigned(fs, items).Some?
    ensures Outcome(fs, Sort(fs, Render(items) + tail)) != Intended(fs, items, tail)
  {
    if SwallowsHead(fs, items) {
      SwallowingDiffers(fs, items, tail);
    } else if Misread(items[0]) {
      MisreadDiffers(fs, items, tail);
    } else {
      IntendedStep(fs, items, tail);
      OutcomeStep(fs, items, tail);
      DerailedDiffers(fs, items[1..], tail);
      BeforeInjective(items[0], Outcome(fs, Sort(fs, Render(items[1..]) + tail)), Intended(fs, items[1..], tail));
    }
  }

  lemma BeforeInjective(it: Item, a: Option<Mixed>, b: Option<Mixed>)
    requires a != b
    ensures Before(it, a) != Before(it, b)
  {
    if a.Some? && b.Some? {
      var m, n := a.value, b.value;
      if it.Positional? {
        assert m.pos == ([it.text] + m.pos)[1..] && n.pos == ([it.text] + n.pos)[1..];
      } else {
        assert m.assigns == ([AssignOf(it)] + m.assigns)[1..] && n.assigns == ([AssignOf(it)] + n.assigns)[1..];
      }
    }
  }

  /** Main result: when every value is acceptable, a line means what it says if and only if no
      item that looks as if it lacked a value stands right before a positional and no separate
      value is `-` or `--`. */
  lemma MeantIff(fs: FlagSet, items: seq<Item>, tail: seq<string>)
    requires AllGood(fs, items) && Tail(tail) && Assigned(fs, items).Some?
    ensures Outcome(fs, Sort(fs, Render(items) + tail)) == Intended(fs, items, tail) <==> !Derails(fs, items)
  {
    if Derails(fs, items) {
      DerailedDiffers(fs, items, tail);
    } else {
      MixedExact(fs, items, tail);
    }
  }

  /** What fs.Parse never looks at when the line swallows: not nothing. */
  lemma {:induction false} SwallowingLeavesRest(fs: FlagSet, items: seq<Item>, tail: seq<string>)
    requires AllGood(fs, items) && Tail(tail) && Derails(fs, items) && Assigned(fs, items).Some?
    requires forall i | 0 <= i < |items| :: !Misread(items[i])
    ensures var s := Sort(fs, Render(items) + tail);
            && ParseFlags(fs, s.flags).Some? && ParseFlags(fs, s.flags).value.rest != []
  {
    var it, rest := items[0], Render(items[1..]) + tail;
    RenderTail(items, tail);
    IntendedStep(fs, items, tail);
    if SwallowsHead(fs, items) {
      assert items[1..][0] == items[1];
      RenderTail(items[1..], tail);
      SwallowedHead(fs, it, items[1].text, Render(items[1..][1..]) + tail);
    } else {
      SwallowingLeavesRest(fs, items[1..], tail);
      NotTaken(fs, items, tail);
      SortItem(fs, it, rest);
      if !it.Positional? {
        ParseItem(fs, it, Sort(fs, rest).flags);
      }
    }
  }

  /** When every value is acceptable and none is `-` or `--`, fs.Parse reads its whole flags
      list exactly when the line does not derail. */
  lemma AllReadIff(fs: FlagSet, items: seq<Item>, tail: seq<string>)
    requires AllGood(fs, items) && Tail(tail) && Assigned(fs, items).Some?
    requires forall i | 0 <= i < |items| :: !Misread(items[i])
    ensures var p := ParseFlags(fs, Sort(fs, Render(items) + tail).flags);
            p.Some? && (p.value.rest == [] <==> !Derails(fs, items))
  {
    if Derails(fs, items) {
      SwallowingLeavesRest(fs, items, tail);
    } else {
      SortRendered(fs, items, tail);
      ParseRendered(fs, items);
    }
  }

  /** Such a line: `--target= id --resign`. The id is no positional and --resign is not set. */
  lemma EmptyInlineLosesTheRest(fs: FlagSet)
    requires "target" in fs.kinds && !fs.kinds["target"] && fs.accepts("target", "")
    requires "resign" in fs.kinds && fs.kinds["resign"]
    ensures var items := [Inline(true, "target", ""), Positional("id"), Switch(true, "resign")];
            && AllGood(fs, items) && Derails(fs, items)
            && Outcome(fs, Sort(fs, Render(items))) == Some(Mixed([Assign("target", "")], []))
  {
    var it, last := Inline(true, "target", ""), Switch(true, "resign");
    var items := [it, Positional("id"), last];
    assert items[1..] == [Positional("id"), last] && items[1..][1..] == [last] && [last][1..] == [];
    assert Render([last]) == Tokens(last) + [];
    assert Tokens(last) + [] == Tokens(last);
    assert Render(items[1..]) == ["id"] + Tokens(last);
    assert Render(items) == Tokens(it) + (["id"] + Tokens(last));
    SortItem(fs, last, []);
    SortSwallowing(fs, it, "id", Tokens(last));
    assert Sort(fs, []) == Sorted([], []) && Tokens(last) + Sort(fs, []).flags == Tokens(last);
    var left := ["id"] + Tokens(last);
    assert Sort(fs, Render(items)) == Sorted(Tokens(it) + left, []);
    assert left[0] == "id" && ParseFlags(fs, left) == Some(Parsed([], left));
    ParseItem(fs, it, left);
    assert [Assign("target", "")] + [] == [Assign("target", "")];
  }
}
