// Command lines spelt by the rules of getopt_long, and proofs that the scanner reads back the
// options they were spelt from.
module CommandLine {
  import opened Collections
  import opened OptionSyntax
  import Getopt

  // How an argument stands: not at all, in the element of its option, or in the next one.
  datatype Form = Alone | Joined(value: string) | Apart(value: string)

  // An operand; a long option spelt name, which stands for m in the list, behind two dashes or the single
  // one of getopt_long_only; letters of which the last may take an argument; and a long option behind a W.
  datatype Item =
    | Operand(arg: string)
    | Named(single: bool, name: string, m: Match, form: Form)
    | Lettered(flags: string, letter: char, form: Form)
    | NamedByW(flags: string, apart: bool, name: string, m: Match, form: Form)

  // ---------------------------------------------------------------- spelling

  // --name, --name=value, or --name value without the dashes.
  function Spelt(name: string, form: Form): string {
    if form.Joined? then name + "=" + form.value else name
  }

  // The same behind the second dash, if there is one.
  function Dashed(single: bool, name: string, form: Form): string {
    if single then Spelt(name, form) else "-" + Spelt(name, form)
  }

  function Following(form: Form): seq<string> {
    if form.Apart? then [form.value] else []
  }

  function Cluster(flags: string, letter: char, form: Form): string {
    flags + [letter] + if form.Joined? then form.value else ""
  }

  function Elements(item: Item): seq<string> {
    match item
    case Operand(arg) => [arg]
    case Named(single, name, _, form) => ["-" + Dashed(single, name, form)] + Following(form)
    case Lettered(flags, letter, form) => ["-" + Cluster(flags, letter, form)] + Following(form)
    case NamedByW(flags, apart, name, _, form) =>
      (if apart then ["-" + flags + "W", Spelt(name, form)] else ["-" + flags + "W" + Spelt(name, form)])
      + Following(form)
  }

  function AllElements(items: seq<Item>): seq<string> {
    if items == [] then [] else Elements(items[0]) + AllElements(items[1..])
  }

  // ---------------------------------------------------------------- what may be spelt

  // Whether an option of this kind may have its argument so; an optional argument cannot stand apart.
  predicate Allows(kind: ArgumentKind, form: Form) {
    match kind
    case NoArgument => form.Alone?
    case RequiredArgument => !form.Alone?
    case OptionalArgument => !form.Apart?
  }

  // A name for what it means by the matching rules. Any name may be misspelt or ambiguous, and an option
  // without argument may be given one in its element: these are reported.
  // Where the name may be read as letters instead, it has to be known.
  ghost predicate GoodName(c: Config, name: string, shortToo: bool, m: Match, form: Form) {
    && c.longOptions.Some? && '=' !in name && MatchRules(c.longOptions.value, name, shortToo, m)
    && match m
       case Found(i) =>
         && i < |c.longOptions.value|
         && var kind := c.longOptions.value[i].hasArg;
            Allows(kind, form) || (kind == NoArgument && form.Joined?)
       case Ambiguous(_) => !form.Apart?
       case NoMatch => !form.Apart? && !shortToo
  }

  predicate Listed(c: Config, letter: char) {
    letter != ':' && letter in c.Letters()
  }

  // What stands behind the first place of the letter in the letters: nothing, a colon or two.
  function KindOf(c: Config, letter: char): ArgumentKind {
    var behind := c.Letters()[IndexOf(c.Letters(), letter)..];
    if |behind| < 2 || behind[1] != ':' then NoArgument
    else if |behind| < 3 || behind[2] != ':' then RequiredArgument
    else OptionalArgument
  }

  predicate IsW(c: Config, letter: char) {
    letter == 'W' && c.longOptions.Some? && Listed(c, 'W')
    && CharAt(c.Letters(), IndexOf(c.Letters(), 'W') + 1) == ';'
  }

  // A letter that stands for itself alone, or is not known.
  predicate IsFlag(c: Config, letter: char) {
    letter != '-' && !IsW(c, letter) && (Listed(c, letter) ==> KindOf(c, letter) == NoArgument)
  }

  predicate GoodLetter(c: Config, letter: char, form: Form) {
    && letter != '-' && !IsW(c, letter) && (form.Joined? ==> form.value != "")
    && if Listed(c, letter) then Allows(KindOf(c, letter), form) else form.Alone?
  }

  // Clusters are read as such unless getopt_long_only takes them for long options.
  predicate Clusters(c: Config, flags: string) {
    (c.longOptions.Some? ==> !c.flagLongOnly) && forall f | f in flags :: IsFlag(c, f)
  }

  // Behind a single dash, a name that starts with a listed letter may mean letters.
  predicate ShortToo(c: Config, single: bool, name: string, form: Form) {
    single && Spelt(name, form) != "" && Listed(c, Spelt(name, form)[0])
  }

  // Something follows two dashes, and no dash follows a single one.
  predicate GoodDashes(c: Config, single: bool, name: string, form: Form) {
    Spelt(name, form) != "" && (single ==> c.flagLongOnly && Spelt(name, form)[0] != '-')
  }

  ghost predicate Good(c: Config, item: Item) {
    match item
    case Operand(arg) => NonOption(c, arg)
    case Named(single, name, m, form) =>
      GoodName(c, name, ShortToo(c, single, name, form), m, form) && GoodDashes(c, single, name, form)
    case Lettered(flags, letter, form) => Clusters(c, flags) && GoodLetter(c, letter, form)
    case NamedByW(flags, apart, name, m, form) =>
      && Clusters(c, flags) && IsW(c, 'W') && GoodName(c, name, false, m, form)
      && (!apart ==> Spelt(name, form) != "")
  }

  // ---------------------------------------------------------------- what is read

  function Argument(form: Form): Option<string> {
    if form.Alone? then None else Some(form.value)
  }

  // The value of the option named, 0 if it has a variable to set instead, '?' for no one option, and
  // the error code for an argument that the option does not take.
  function GotName(c: Config, m: Match, form: Form): Got
    requires c.longOptions.Some? && (m.Found? ==> m.index < |c.longOptions.value|)
  {
    match m
    case Found(i) =>
      var o := c.longOptions.value[i];
      if !Allows(o.hasArg, form) then Got(c.BadArg(), None)
      else if o.flag == 0 then Got(o.val, Argument(form))
      else Got(0, Argument(form))
    case _ => Got('?' as int, None)
  }

  function GotLetter(c: Config, letter: char, form: Form): Got {
    if Listed(c, letter) then Got(Code(letter), Argument(form)) else Got('?' as int, None)
  }

  function GotFlags(c: Config, flags: string): seq<Got> {
    if flags == "" then [] else [GotLetter(c, flags[0], Alone)] + GotFlags(c, flags[1..])
  }

  ghost function GotFrom(c: Config, item: Item): seq<Got>
    requires Good(c, item)
  {
    match item
    case Operand(_) => []
    case Named(_, _, m, form) => [GotName(c, m, form)]
    case Lettered(flags, letter, form) => GotFlags(c, flags) + [GotLetter(c, letter, form)]
    case NamedByW(flags, _, _, m, form) => GotFlags(c, flags) + [GotName(c, m, form)]
  }

  ghost predicate AllGood(c: Config, items: seq<Item>) {
    forall item | item in items :: Good(c, item)
  }

  ghost function AllGot(c: Config, items: seq<Item>): seq<Got>
    requires AllGood(c, items)
  {
    if items == [] then [] else GotFrom(c, items[0]) + AllGot(c, items[1..])
  }

  // The elements of options and the operands, each in original order.
  function OptionElements(items: seq<Item>): seq<string> {
    if items == [] then []
    else (if items[0].Operand? then [] else Elements(items[0])) + OptionElements(items[1..])
  }

  function Operands(items: seq<Item>): seq<string> {
    if items == [] then []
    else (if items[0].Operand? then [items[0].arg] else []) + Operands(items[1..])
  }

  // ---------------------------------------------------------------- long options

  lemma {:induction false} EqualSign(name: string, after: string)
    requires '=' !in name
    ensures IndexOf(name + after, '=') == |name| + IndexOf(after, '=')
  {
    if name == "" {
      assert name + after == after;
    } else {
      assert (name + after)[1..] == name[1..] + after;
      EqualSign(name[1..], after);
    }
  }

  // Where the name ends in an element, and what stands behind it.
  lemma NameAndValue(name: string, form: Form)
    requires '=' !in name
    ensures var text, eq := Spelt(name, form), IndexOf(Spelt(name, form), '=');
            eq == |name| && text[..eq] == name && (eq < |text| <==> form.Joined?)
            && (form.Joined? ==> text[eq + 1..] == form.value)
  {
    if form.Joined? {
      assert name + "=" + form.value == name + ("=" + form.value);
      EqualSign(name, "=" + form.value);
    } else {
      assert name + "" == name;
      EqualSign(name, "");
    }
  }

  lemma Matched(longs: seq<LongOption>, name: string, shortToo: bool, m: Match)
    requires MatchRules(longs, name, shortToo, m)
    ensures MatchFrom(longs, name, shortToo, 0, NoMatch) == m && (m != NoMatch ==> m.index < |longs|)
  {
    MatchedSoFar(longs, name, shortToo, 0, NoMatch);
    MatchRulesDetermine(longs, name, shortToo, m, MatchFrom(longs, name, shortToo, 0, NoMatch));
  }

  // A long option is read as the one its name stands for.
  lemma NameRead(c: Config, name: string, shortToo: bool, m: Match, form: Form, tail: seq<string>)
    requires GoodName(c, name, shortToo, m, form)
    ensures var got := GotName(c, m, form);
            ReadLong(c, Spelt(name, form), Following(form) + tail, shortToo)
            == Long(got.code, 1 + |Following(form)|, got.optarg)
  {
    hide MatchFrom, IndexOf;
    Matched(c.longOptions.value, name, shortToo, m);
    NameAndValue(name, form);
  }

  lemma DashedRead(c: Config, single: bool, name: string, m: Match, form: Form, rest: seq<string>, tail: seq<string>)
    requires GoodName(c, name, ShortToo(c, single, name, form), m, form) && GoodDashes(c, single, name, form)
    requires rest != [] && rest[1..] == Following(form) + tail
    ensures var got := GotName(c, m, form);
            ReadOption(c, Dashed(single, name, form), false, rest)
            == Reading(got.code, 1 + |Following(form)|, "", got.optarg)
  {
    hide ReadLong, Spelt, MatchRules;
    NameRead(c, name, ShortToo(c, single, name, form), m, form, tail);
    var place := Dashed(single, name, form);
    assert !single ==> place[0] == '-' && place[1..] == Spelt(name, form);
  }

  // ---------------------------------------------------------------- letters

  lemma FlagRead(c: Config, flag: char, more: string, rest: seq<string>)
    requires Clusters(c, "") && IsFlag(c, flag) && more != "" && rest != []
    ensures ReadOption(c, [flag] + more, false, rest) == Reading(GotLetter(c, flag, Alone).code, 0, more, None)
  {
    var place := [flag] + more;
    assert place[1..] == more;
  }

  lemma LastLetterRead(c: Config, letter: char, form: Form, rest: seq<string>, tail: seq<string>)
    requires Clusters(c, "") && GoodLetter(c, letter, form)
    requires rest != [] && rest[1..] == Following(form) + tail
    ensures var got := GotLetter(c, letter, form);
            ReadOption(c, Cluster("", letter, form), false, rest)
            == Reading(got.code, 1 + |Following(form)|, "", got.optarg)
  {
    var place := Cluster("", letter, form);
    assert place[0] == letter && place[1..] == if form.Joined? then form.value else "";
    if form.Apart? {
      assert rest[1] == rest[1..][0];
    }
  }

  lemma WRead(c: Config, name: string, m: Match, form: Form, rest: seq<string>, tail: seq<string>)
    requires Clusters(c, "") && IsW(c, 'W') && GoodName(c, name, false, m, form)
    requires Spelt(name, form) != "" && rest != [] && rest[1..] == Following(form) + tail
    ensures var got := GotName(c, m, form);
            ReadOption(c, "W" + Spelt(name, form), false, rest)
            == Reading(got.code, 1 + |Following(form)|, "", got.optarg)
  {
    hide ReadLong, Spelt;
    NameRead(c, name, false, m, form, tail);
    var place := "W" + Spelt(name, form);
    assert place[0] == 'W' && place[1..] == Spelt(name, form);
  }

  lemma WApartRead(c: Config, name: string, m: Match, form: Form, rest: seq<string>, tail: seq<string>)
    requires Clusters(c, "") && IsW(c, 'W') && GoodName(c, name, false, m, form)
    requires rest != [] && rest[1..] == [Spelt(name, form)] + Following(form) + tail
    ensures var got := GotName(c, m, form);
            ReadOption(c, "W", false, rest) == Reading(got.code, 2 + |Following(form)|, "", got.optarg)
  {
    hide ReadLong, Spelt;
    NameRead(c, name, false, m, form, tail);
    assert rest[1] == rest[1..][0];
    assert rest[2..] == rest[1..][1..] == Following(form) + tail;
  }

  // A cluster is no dash, so that its element is not taken for "--".
  lemma NoDash(c: Config, flags: string, last: string)
    requires Clusters(c, flags) && last != "" && last[0] != '-'
    ensures flags + last != "-"
  {
    assert flags != "" ==> flags[0] in flags;
    assert (flags + last)[0] != '-';
  }

  // Letters in front are read one by one, and the rest of the cluster as if it stood alone.
  lemma {:induction false} FlagsRead(c: Config, flags: string, last: string, rest: seq<string>)
    requires Clusters(c, flags) && last != "" && rest != []
    ensures ReadIn(c, flags + last, false, rest) == GotFlags(c, flags) + ReadIn(c, last, false, rest)
    ensures ExtentOf(c, flags + last, false, rest) == ExtentOf(c, last, false, rest)
    decreases |flags|
  {
    hide ReadOption, ReadIn, ExtentOf, IsFlag;
    var got := ReadIn(c, last, false, rest);
    if flags == "" {
      assert flags + last == last && [] + got == got;
    } else {
      var more := flags[1..] + last;
      assert flags + last == [flags[0]] + more;
      FlagRead(c, flags[0], more, rest);
      OneOfElement(c, flags + last, false, rest, more);
      FlagsRead(c, flags[1..], last, rest);
      var first := [GotLetter(c, flags[0], Alone)];
      assert first + (GotFlags(c, flags[1..]) + got) == first + GotFlags(c, flags[1..]) + got;
    }
  }

  // ---------------------------------------------------------------- whole command lines

  // What a scan of the elements of an item followed by tail makes of them.
  ghost function Prepended(c: Config, item: Item, s: Split): Split
    requires Good(c, item)
  {
    s.(opts := (if item.Operand? then [] else Elements(item)) + s.opts,
       nonopts := (if item.Operand? then [item.arg] else []) + s.nonopts,
       read := GotFrom(c, item) + s.read)
  }

  // An option element of which all is known.
  lemma ElementSplit(c: Config, place: string, args: seq<string>, n: nat, got: seq<Got>)
    requires args != [] && place != "" && args[0] == "-" + place && place != "-"
    requires ReadIn(c, place, false, args) == got && ExtentOf(c, place, false, args) == Extent(n, false)
    ensures n <= |args|
    ensures var s := SplitArgs(c, args[n..]);
            SplitArgs(c, args) == s.(opts := args[..n] + s.opts, read := got + s.read)
  {
    hide ReadIn, ExtentOf;
    assert args[0][1..] == place;
    assert args[0] != DASH_DASH;
  }

  lemma NamedSplit(c: Config, item: Item, tail: seq<string>)
    requires Good(c, item) && item.Named?
    ensures SplitArgs(c, Elements(item) + tail) == Prepended(c, item, SplitArgs(c, tail))
  {
    hide ReadOption, ReadIn, ExtentOf, SplitArgs, MatchRules, GotName, ShortToo, Spelt;
    var args, n := Elements(item) + tail, 1 + |Following(item.form)|;
    var place := Dashed(item.single, item.name, item.form);
    assert args[0] == "-" + place && args[1..] == Following(item.form) + tail;
    DashedRead(c, item.single, item.name, item.m, item.form, args, tail);
    LastOfElement(c, place, false, args);
    DashedIsNoDash(c, item.single, item.name, item.form);
    ElementSplit(c, place, args, n, [GotName(c, item.m, item.form)]);
    assert args[..n] == Elements(item) && args[n..] == tail;
  }

  lemma DashedIsNoDash(c: Config, single: bool, name: string, form: Form)
    requires GoodDashes(c, single, name, form)
    ensures var place := Dashed(single, name, form); place != "" && place != "-"
  {
    assert !single ==> |Dashed(single, name, form)| > 1;
  }

  // A cluster of which the last option is known.
  lemma ClusterSplit(c: Config, flags: string, last: string, args: seq<string>, n: nat, got: Got)
    requires Clusters(c, flags) && last != "" && last[0] != '-' && args != [] && args[0] == "-" + (flags + last)
    requires ReadOption(c, last, false, args) == Reading(got.code, n, "", got.optarg)
    ensures n <= |args|
    ensures var s := SplitArgs(c, args[n..]);
            SplitArgs(c, args) == s.(opts := args[..n] + s.opts, read := GotFlags(c, flags) + [got] + s.read)
  {
    hide ReadOption, ReadIn, ExtentOf, SplitArgs, IsFlag, GotFlags;
    LastOfElement(c, last, false, args);
    assert got == Got(got.code, got.optarg);
    FlagsRead(c, flags, last, args);
    NoDash(c, flags, last);
    ElementSplit(c, flags + last, args, n, GotFlags(c, flags) + [got]);
  }

  lemma LetteredSplit(c: Config, item: Item, tail: seq<string>)
    requires Good(c, item) && item.Lettered?
    ensures SplitArgs(c, Elements(item) + tail) == Prepended(c, item, SplitArgs(c, tail))
  {
    hide ReadOption, SplitArgs, GotLetter, GotFlags, KindOf, IsW;
    var args, last, n := Elements(item) + tail, Cluster("", item.letter, item.form), |Elements(item)|;
    assert item.flags + last == Cluster(item.flags, item.letter, item.form) && last[0] == item.letter;
    assert args[1..] == Following(item.form) + tail;
    LastLetterRead(c, item.letter, item.form, args, tail);
    ClusterSplit(c, item.flags, last, args, n, GotLetter(c, item.letter, item.form));
    assert args[..n] == Elements(item) && args[n..] == tail;
  }

  lemma NamedByWSplit(c: Config, item: Item, tail: seq<string>)
    requires Good(c, item) && item.NamedByW?
    ensures SplitArgs(c, Elements(item) + tail) == Prepended(c, item, SplitArgs(c, tail))
  {
    hide ReadOption, SplitArgs, MatchRules, GotName, GotFlags, Spelt, IsW, IsFlag;
    var args, text := Elements(item) + tail, Spelt(item.name, item.form);
    var last, n := if item.apart then "W" else "W" + text, |Elements(item)|;
    assert args[0] == "-" + (item.flags + last) && last[0] == 'W';
    if item.apart {
      assert args[1..] == [text] + Following(item.form) + tail;
      WApartRead(c, item.name, item.m, item.form, args, tail);
    } else {
      assert args[1..] == Following(item.form) + tail;
      WRead(c, item.name, item.m, item.form, args, tail);
    }
    ClusterSplit(c, item.flags, last, args, n, GotName(c, item.m, item.form));
    assert args[..n] == Elements(item) && args[n..] == tail;
  }

  lemma ItemSplit(c: Config, item: Item, tail: seq<string>)
    requires Good(c, item)
    ensures SplitArgs(c, Elements(item) + tail) == Prepended(c, item, SplitArgs(c, tail))
  {
    hide Spelt, Prepended, Elements, SplitArgs, GotFrom, GoodName, GoodLetter, Clusters;
    match item
    case Operand(arg) => OperandSplit(c, item, tail);
    case Named(_, _, _, _) => NamedSplit(c, item, tail);
    case Lettered(_, _, _) => LetteredSplit(c, item, tail);
    case NamedByW(_, _, _, _, _) => NamedByWSplit(c, item, tail);
  }

  lemma OperandSplit(c: Config, item: Item, tail: seq<string>)
    requires Good(c, item) && item.Operand?
    ensures SplitArgs(c, Elements(item) + tail) == Prepended(c, item, SplitArgs(c, tail))
  {
    var args := Elements(item) + tail;
    assert args[0] == item.arg && args[1..] == tail;
    var s := SplitArgs(c, tail);
    assert [] + s.opts == s.opts && [] + s.read == s.read;
  }

  // What a scan of items followed by tail makes of them.
  ghost predicate ReadBefore(c: Config, items: seq<Item>, s: Split, t: Split)
    requires AllGood(c, items)
  {
    && s.read == AllGot(c, items) + t.read
    && s.opts == OptionElements(items) + t.opts && s.nonopts == Operands(items) + t.nonopts
    && s.rest == t.rest && s.clean == t.clean
  }

  lemma ReadStep(c: Config, items: seq<Item>, s: Split, t: Split)
    requires AllGood(c, items) && items != [] && ReadBefore(c, items[1..], s, t)
    ensures ReadBefore(c, items, Prepended(c, items[0], s), t)
  {
    hide GotFrom, Elements, Good;
    assert GotFrom(c, items[0]) + (AllGot(c, items[1..]) + t.read) == AllGot(c, items) + t.read;
  }

  // A command line is read as it was spelt: the options in order, each with its argument, and in front of
  // whatever the rest of the line gives. Its elements are sorted into those of options and operands.
  lemma {:induction false} LineRead(c: Config, items: seq<Item>, tail: seq<string>)
    requires AllGood(c, items)
    ensures ReadBefore(c, items, SplitArgs(c, AllElements(items) + tail), SplitArgs(c, tail))
  {
    hide SplitArgs, Elements, Good, Prepended, ReadBefore;
    if items == [] {
      assert AllElements([]) + tail == tail;
      NothingRead(c, SplitArgs(c, tail));
    } else {
      var rest := AllElements(items[1..]) + tail;
      assert AllElements(items) + tail == Elements(items[0]) + rest;
      LineRead(c, items[1..], tail);
      ItemSplit(c, items[0], rest);
      ReadStep(c, items, SplitArgs(c, rest), SplitArgs(c, tail));
    }
  }

  lemma NothingRead(c: Config, t: Split)
    ensures ReadBefore(c, [], t, t)
  {
    assert [] + t.read == t.read && [] + t.opts == t.opts && [] + t.nonopts == t.nonopts;
  }

  // ---------------------------------------------------------------- a line that ends too early

  ghost predicate NameNeedsMore(c: Config, name: string, shortToo: bool, m: Match, form: Form) {
    && c.longOptions.Some? && '=' !in name && MatchRules(c.longOptions.value, name, shortToo, m) && form.Alone?
    && m.Found? && m.index < |c.longOptions.value| && c.longOptions.value[m.index].hasArg == RequiredArgument
  }

  // The option at the end of the item needs an argument that would have to follow.
  ghost predicate NeedsMore(c: Config, item: Item) {
    match item
    case Operand(_) => false
    case Named(single, name, m, form) =>
      NameNeedsMore(c, name, ShortToo(c, single, name, form), m, form) && GoodDashes(c, single, name, form)
    case Lettered(flags, letter, form) =>
      && Clusters(c, flags) && letter != '-' && form.Alone?
      && (IsW(c, letter) || (Listed(c, letter) && KindOf(c, letter) == RequiredArgument))
    case NamedByW(flags, apart, name, m, form) =>
      Clusters(c, flags) && IsW(c, 'W') && NameNeedsMore(c, name, false, m, form) && (!apart ==> name != "")
  }

  function Flags(item: Item): string {
    match item
    case Lettered(flags, _, _) => flags
    case NamedByW(flags, _, _, _, _) => flags
    case _ => ""
  }

  // What stands behind the flags in the element.
  function LastPart(item: Item): string
    requires !item.Operand?
  {
    match item
    case Named(single, name, _, form) => Dashed(single, name, form)
    case Lettered(_, letter, form) => Cluster("", letter, form)
    case NamedByW(_, apart, name, _, form) => if apart then "W" else "W" + Spelt(name, form)
  }

  lemma NameUnsupplied(c: Config, name: string, shortToo: bool, m: Match, form: Form)
    requires NameNeedsMore(c, name, shortToo, m, form)
    ensures ReadLong(c, name, [], shortToo) == Long(c.BadArg(), 1, None)
  {
    hide MatchFrom, IndexOf;
    Matched(c.longOptions.value, name, shortToo, m);
    NameAndValue(name, form);
  }

  lemma DashedUnsupplied(c: Config, single: bool, name: string, m: Match, form: Form, rest: seq<string>)
    requires NameNeedsMore(c, name, ShortToo(c, single, name, form), m, form) && GoodDashes(c, single, name, form)
    requires |rest| == 1
    ensures ReadOption(c, Dashed(single, name, form), false, rest) == Reading(c.BadArg(), 1, "", None)
  {
    hide ReadLong, MatchRules;
    NameUnsupplied(c, name, ShortToo(c, single, name, form), m, form);
    var place := Dashed(single, name, form);
    assert rest[1..] == [] && (!single ==> place[0] == '-' && place[1..] == name);
  }

  lemma LetterUnsupplied(c: Config, letter: char, rest: seq<string>)
    requires Clusters(c, "") && letter != '-' && |rest| == 1
    requires IsW(c, letter) || (Listed(c, letter) && KindOf(c, letter) == RequiredArgument)
    ensures ReadOption(c, [letter], false, rest) == Reading(c.BadArg(), 1, "", None)
  {
    var place := [letter];
    assert place[1..] == "";
  }

  lemma WUnsupplied(c: Config, apart: bool, name: string, m: Match, form: Form, rest: seq<string>)
    requires Clusters(c, "") && IsW(c, 'W') && NameNeedsMore(c, name, false, m, form) && (!apart ==> name != "")
    requires rest != [] && rest[1..] == if apart then [name] else []
    ensures ReadOption(c, if apart then "W" else "W" + name, false, rest) == Reading(c.BadArg(), |rest|, "", None)
  {
    hide ReadLong, MatchRules;
    NameUnsupplied(c, name, false, m, form);
    var place := if apart then "W" else "W" + name;
    assert place[0] == 'W' && place[1..] == if apart then "" else name;
    if apart {
      assert rest[1] == rest[1..][0] && rest[2..] == [];
    }
  }

  lemma LastUnsupplied(c: Config, item: Item)
    requires NeedsMore(c, item)
    ensures ReadOption(c, LastPart(item), false, Elements(item)) == Reading(c.BadArg(), |Elements(item)|, "", None)
  {
    hide ReadOption, MatchRules, ShortToo, IsW, KindOf;
    match item
    case Named(single, name, m, form) => DashedUnsupplied(c, single, name, m, form, Elements(item));
    case Lettered(_, letter, _) =>
      assert LastPart(item) == [letter];
      LetterUnsupplied(c, letter, Elements(item));
    case NamedByW(_, apart, name, m, form) => WUnsupplied(c, apart, name, m, form, Elements(item));
  }

  // A line that ends so reports the missing argument last.
  lemma UnsuppliedRead(c: Config, item: Item)
    requires NeedsMore(c, item)
    ensures var s := SplitArgs(c, Elements(item));
            && s.read == GotFlags(c, Flags(item)) + [Got(c.BadArg(), None)]
            && s.opts == Elements(item) && s.nonopts == [] && s.rest == [] && s.clean
  {
    hide ReadOption, ReadIn, ExtentOf, MatchRules, KindOf, IsW, IsFlag;
    var args, last := Elements(item), LastPart(item);
    LastUnsupplied(c, item);
    assert args[|args|..] == [];
    assert args[0] == "-" + (Flags(item) + last);
    if item.Named? {
      DashedIsNoDash(c, item.single, item.name, item.form);
      LastOfElement(c, last, false, args);
      ElementSplit(c, last, args, 1, [Got(c.BadArg(), None)]);
    } else {
      ClusterSplit(c, Flags(item), last, args, |args|, Got(c.BadArg(), None));
    }
  }

  // ---------------------------------------------------------------- the caller

  // The loop of the caller over a whole vector, after the program's name. If the vector was spelt from
  // items, these are read back, and it ends as the elements of options followed by the operands.
  method ReadAll(nargv: array<string>, c: Config, ghost items: seq<Item>) returns (read: seq<Got>, optind: nat)
    requires c.Permuting() && nargv.Length >= 1
    modifies nargv
    ensures read == SplitArgs(c, old(nargv[1..])).read
    ensures AllGood(c, items) && old(nargv[1..]) == AllElements(items) ==>
              && read == AllGot(c, items) && optind == 1 + |OptionElements(items)|
              && nargv[..] == [old(nargv[0])] + OptionElements(items) + Operands(items)
  {
    hide SplitArgs, Getopt.GoalOf;
    var scanner := new Getopt.Scanner(nargv);
    ghost var program, args := nargv[0], nargv[1..];
    assert nargv.Length == 1 ==> args == [];
    assert scanner.Remaining(c, nargv[..]) == SplitArgs(c, args);
    assert nargv[..1] == [program];
    GoalAtStart(program, SplitArgs(c, args));
    read := scanner.RunAll(nargv, c);
    optind := scanner.optind;
    if AllGood(c, items) && args == AllElements(items) {
      WholeLineRead(c, items);
    }
  }

  lemma GoalAtStart(program: string, s: Split)
    ensures Getopt.GoalOf([program], [], [], s) == ([program] + s.opts + s.nonopts + s.rest, 1 + |s.opts|)
  {
    assert [] + s.opts == s.opts && [] + s.nonopts == s.nonopts;
  }

  lemma WholeLineRead(c: Config, items: seq<Item>)
    requires AllGood(c, items)
    ensures SplitArgs(c, AllElements(items))
         == Split(OptionElements(items), Operands(items), [], AllGot(c, items), true)
  {
    hide AllElements, OptionElements, Operands, AllGot;
    LineRead(c, items, []);
    assert AllElements(items) + [] == AllElements(items);
    assert OptionElements(items) + [] == OptionElements(items) && Operands(items) + [] == Operands(items);
  }
}
