// How one element of the argument vector is read: which options it names and how many of
// the following elements it takes.
module OptionSyntax {
  import opened Collections

  datatype ArgumentKind = NoArgument | RequiredArgument | OptionalArgument

  // A long option; flag is the identity of the variable to set, 0 for none.
  datatype LongOption = LongOption(name: string, hasArg: ArgumentKind, flag: nat, val: int)

  // The int a letter is returned as: a byte is a signed char.
  function Code(c: char): int {
    if 0x80 <= c as int < 0x100 then c as int - 0x100 else c as int
  }

  // What a scan is configured with. options still carries a leading '+' or '-'.
  datatype RawConfig = Config(options: string, longOptions: Option<seq<LongOption>>,
                              flagPermute: bool, flagLongOnly: bool, posixlyCorrect: bool) {
    // -1 means "no more options" to the caller and may not be the value of a long option, nor the
    // code of a letter, as that of the byte 0xFF is.
    predicate Valid() {
      && (longOptions.Some? ==> forall o | o in longOptions.value :: o.flag != 0 || o.val != -1)
      && forall ch | ch in options :: Code(ch) != -1
    }

    predicate AllArgs() {
      options != "" && options[0] == '-'
    }

    predicate Permuting() {
      flagPermute && !AllArgs() && !posixlyCorrect && !(options != "" && options[0] == '+')
    }

    // The option letters proper.
    function Letters(): string {
      if options != "" && (options[0] == '+' || options[0] == '-') then options[1..] else options
    }

    function BadArg(): int {
      if Letters() != "" && Letters()[0] == ':' then ':' as int else '?' as int
    }
  }

  type Config = c: RawConfig | c.Valid() witness Config("", None, false, false, false)

  // ---------------------------------------------------------------- C strings

  const BADCH := '?' as int

  // The position of the first c in s, or |s|.
  function IndexOf(s: string, c: char): (i: nat)
    ensures i <= |s| && c !in s[..i] && (i < |s| ==> s[i] == c)
  {
    if s == "" then 0
    else if s[0] == c then 0
    else
      var i := IndexOf(s[1..], c);
      assert s[..i + 1] == [s[0]] + s[1..][..i];
      i + 1
  }

  // The character at i, or the terminator.
  function CharAt(s: string, i: nat): char {
    if i < |s| then s[i] else '\0'
  }

  // ---------------------------------------------------------------- long options

  // Which long option an abbreviation means: an exact match wins; otherwise the first
  // partial match, ambiguous if a later one is not interchangeable with it.
  datatype Match = NoMatch | Found(index: nat) | Ambiguous(index: nat)

  predicate Interchangeable(a: LongOption, b: LongOption) {
    a.hasArg == b.hasArg && a.flag == b.flag && a.val == b.val
  }

  function MatchFrom(longs: seq<LongOption>, name: string, shortToo: bool, i: nat, m: Match): (r: Match)
    requires i <= |longs|
    requires m != NoMatch ==> m.index < |longs|
    ensures r != NoMatch ==> r.index < |longs|
    decreases |longs| - i
  {
    if i == |longs| then m
    else if !(name <= longs[i].name) then MatchFrom(longs, name, shortToo, i + 1, m)
    else if longs[i].name == name then Found(i)
    else if shortToo && |name| == 1 then MatchFrom(longs, name, shortToo, i + 1, m)
    else if m == NoMatch then MatchFrom(longs, name, shortToo, i + 1, Found(i))
    else if !Interchangeable(longs[i], longs[m.index]) then
      MatchFrom(longs, name, shortToo, i + 1, Ambiguous(m.index))
    else MatchFrom(longs, name, shortToo, i + 1, m)
  }

  // Option i is named exactly, or abbreviated: a single letter does not abbreviate where it may
  // be a short option.
  predicate Exact(longs: seq<LongOption>, name: string, i: nat) {
    i < |longs| && longs[i].name == name
  }

  predicate Partial(longs: seq<LongOption>, name: string, shortToo: bool, i: nat) {
    i < |longs| && name <= longs[i].name && longs[i].name != name && !(shortToo && |name| == 1)
  }

  predicate FirstExact(longs: seq<LongOption>, name: string, i: nat) {
    Exact(longs, name, i) && forall j: nat | j < i :: !Exact(longs, name, j)
  }

  predicate FirstPartial(longs: seq<LongOption>, name: string, shortToo: bool, n: nat, i: nat) {
    i < n && Partial(longs, name, shortToo, i) && forall j: nat | j < i :: !Partial(longs, name, shortToo, j)
  }

  // What abbreviating says about the first n options: nothing matches, all matches may stand for
  // the first of them, or some may not.
  ghost predicate Abbreviates(longs: seq<LongOption>, name: string, shortToo: bool, n: nat, r: Match)
    requires n <= |longs|
  {
    match r
    case NoMatch => forall j: nat | j < n :: !Partial(longs, name, shortToo, j)
    case Found(i) =>
      && FirstPartial(longs, name, shortToo, n, i)
      && forall j: nat | j < n && Partial(longs, name, shortToo, j) :: Interchangeable(longs[j], longs[i])
    case Ambiguous(i) =>
      && FirstPartial(longs, name, shortToo, n, i)
      && exists j: nat | j < n && Partial(longs, name, shortToo, j) :: !Interchangeable(longs[j], longs[i])
  }

  // The matching rules: the first exact name wins whatever else matches; without one, the
  // abbreviations decide.
  ghost predicate MatchRules(longs: seq<LongOption>, name: string, shortToo: bool, r: Match) {
    && (forall i: nat | FirstExact(longs, name, i) :: r == Found(i))
    && ((forall i: nat | i < |longs| :: !Exact(longs, name, i)) ==> Abbreviates(longs, name, shortToo, |longs|, r))
  }

  lemma {:induction false} MatchedSoFar(longs: seq<LongOption>, name: string, shortToo: bool, i: nat, m: Match)
    requires i <= |longs| && (m != NoMatch ==> m.index < |longs|)
    requires forall j: nat | j < i :: !Exact(longs, name, j)
    requires Abbreviates(longs, name, shortToo, i, m)
    ensures MatchRules(longs, name, shortToo, MatchFrom(longs, name, shortToo, i, m))
    decreases |longs| - i
  {
    if i < |longs| {
      if longs[i].name == name {
        assert Exact(longs, name, i);
      } else {
        var next :=
          if !Partial(longs, name, shortToo, i) then m
          else if m == NoMatch then Found(i)
          else if !Interchangeable(longs[i], longs[m.index]) then Ambiguous(m.index)
          else m;
        MatchedSoFar(longs, name, shortToo, i + 1, next);
      }
    }
  }

  // No two answers meet the rules.
  lemma MatchRulesDetermine(longs: seq<LongOption>, name: string, shortToo: bool, r: Match, r': Match)
    requires MatchRules(longs, name, shortToo, r) && MatchRules(longs, name, shortToo, r')
    ensures r == r'
  {
    if i: nat :| Exact(longs, name, i) {
      var first := FirstExactBelow(longs, name, i);
    }
  }

  lemma {:induction false} FirstExactBelow(longs: seq<LongOption>, name: string, i: nat) returns (first: nat)
    requires Exact(longs, name, i)
    ensures FirstExact(longs, name, first)
    decreases i
  {
    first := i;
    if j: nat :| j < i && Exact(longs, name, j) {
      first := FirstExactBelow(longs, name, j);
    }
  }

  // The matching loop of the source.
  method FindMatch(longs: seq<LongOption>, name: string, shortToo: bool) returns (r: Match)
    ensures r == MatchFrom(longs, name, shortToo, 0, NoMatch) && MatchRules(longs, name, shortToo, r)
  {
    MatchedSoFar(longs, name, shortToo, 0, NoMatch);
    var match_, ambiguous, i := -1, false, 0;
    while i < |longs|
      invariant 0 <= i <= |longs| && -1 <= match_ < |longs| && (match_ == -1 ==> !ambiguous)
      invariant MatchFrom(longs, name, shortToo, 0, NoMatch) == MatchFrom(longs, name, shortToo, i,
                  if match_ == -1 then NoMatch else if ambiguous then Ambiguous(match_) else Found(match_))
    {
      if !(name <= longs[i].name) {
        i := i + 1;
        continue;
      }
      if |longs[i].name| == |name| {
        match_ := i;
        ambiguous := false;
        return Found(i);
      }
      if shortToo && |name| == 1 {
        i := i + 1;
        continue;
      }
      if match_ == -1 {
        match_ := i;
      } else if !Interchangeable(longs[i], longs[match_]) {
        ambiguous := true;
      }
      i := i + 1;
    }
    return if match_ == -1 then NoMatch else if ambiguous then Ambiguous(match_) else Found(match_);
  }

  // The outcome of reading one option: the value returned, the elements consumed with it, the
  // unread rest of the current element, and the argument found. Stop is the premature end of
  // scanning at a '-' that closes a cluster.
  datatype Reading =
    | Reading(code: int, taken: nat, place: string, optarg: Option<string>)
    | Stop

  // A long option spelt text, with the elements after it. NotLong sends the caller on to try
  // a short option.
  datatype LongReading = Long(code: int, taken: nat, optarg: Option<string>) | NotLong

  function ReadLong(c: Config, text: string, tail: seq<string>, shortToo: bool): (r: LongReading)
    requires c.longOptions.Some?
    ensures r.Long? ==> 1 <= r.taken <= 1 + |tail| && r.code != -1
    ensures r.NotLong? ==> shortToo
  {
    var longs := c.longOptions.value;
    var eq := IndexOf(text, '=');
    var value := if eq < |text| then Some(text[eq + 1..]) else None;
    match MatchFrom(longs, text[..eq], shortToo, 0, NoMatch)
    case Ambiguous(_) => Long(BADCH, 1, None)
    case NoMatch => if shortToo then NotLong else Long(BADCH, 1, None)
    case Found(i) =>
      var o := longs[i];
      var code := if o.flag != 0 then 0 else o.val;
      if o.hasArg == NoArgument then
        if value.Some? then Long(c.BadArg(), 1, None) else Long(code, 1, None)
      else if value.Some? || o.hasArg == OptionalArgument then Long(code, 1, value)
      else if tail == [] then Long(c.BadArg(), 1, None)
      else Long(code, 2, Some(tail[0]))
  }

  // ---------------------------------------------------------------- one option

  // Reading one option at place, a nonempty rest of the element rest[0]; whole tells that
  // place is that element from its start, which happens for a lone '-' only.
  function ReadOption(c: Config, place: string, whole: bool, rest: seq<string>): (r: Reading)
    requires place != "" && rest != []
    ensures r.Reading? ==> r.code != -1 && |r.place| < |place|
    ensures r.Reading? && r.place == "" ==> 1 <= r.taken <= |rest|
    ensures r.Reading? && r.place != "" ==> r.taken == 0
  {
    if c.longOptions.Some? && !whole && (place[0] == '-' || c.flagLongOnly) then
      var dashed := place[0] == '-';
      var shortToo := !dashed && place[0] != ':' && place[0] in c.Letters();
      match ReadLong(c, if dashed then place[1..] else place, rest[1..], shortToo)
      case Long(code, taken, optarg) => Reading(code, taken, "", optarg)
      case NotLong => ReadShort(c, place, rest)
    else
      ReadShort(c, place, rest)
  }

  function ReadShort(c: Config, place: string, rest: seq<string>): (r: Reading)
    requires place != "" && rest != []
    ensures r.Reading? ==> r.code != -1 && |r.place| < |place|
    ensures r.Reading? && r.place == "" ==> 1 <= r.taken <= |rest|
    ensures r.Reading? && r.place != "" ==> r.taken == 0
  {
    var letters, optchar, after := c.Letters(), place[0], place[1..];
    var oli := IndexOf(letters, optchar);
    if optchar == ':' || (optchar == '-' && after != "") || oli == |letters| then
      if optchar == '-' && after == "" then Stop
      else Reading(BADCH, if after == "" then 1 else 0, after, None)
    else if c.longOptions.Some? && optchar == 'W' && CharAt(letters, oli + 1) == ';' then
      if after != "" then
        var l := ReadLong(c, after, rest[1..], false);
        Reading(l.code, l.taken, "", l.optarg)
      else if |rest| == 1 then Reading(c.BadArg(), 1, "", None)
      else
        var l := ReadLong(c, rest[1], rest[2..], false);
        Reading(l.code, 1 + l.taken, "", l.optarg)
    else ReadArgument(c, optchar, CharAt(letters, oli + 1), CharAt(letters, oli + 2), after, rest)
  }

  // A known letter, followed in the letters by mark and mark2, with the text after it in its
  // element.
  function ReadArgument(c: Config, optchar: char, mark: char, mark2: char, after: string,
                        rest: seq<string>): (r: Reading)
    requires rest != [] && optchar in c.Letters()
    ensures r.Reading? && r.code != -1 && |r.place| <= |after|
    ensures if r.place == "" then 1 <= r.taken <= |rest| else r.taken == 0
  {
    if mark != ':' then Reading(Code(optchar), if after == "" then 1 else 0, after, None)
    else if after != "" then Reading(Code(optchar), 1, "", Some(after))
    else if mark2 != ':' then
      if |rest| == 1 then Reading(c.BadArg(), 1, "", None)
      else Reading(Code(optchar), 2, "", Some(rest[1]))
    else Reading(Code(optchar), 1, "", None)
  }

  // ---------------------------------------------------------------- one element

  // Not an option: no leading '-', or a lone '-' that the letters do not list.
  predicate NonOption(c: Config, arg: string) {
    arg == "" || arg[0] != '-' || (arg == "-" && '-' !in c.Letters())
  }

  const DASH_DASH := "--"

  // Where reading of an option element starts, and whether that is its very start.
  function FirstPlace(arg: string): (string, bool)
    requires arg != ""
  {
    if |arg| == 1 then (arg, true) else (arg[1..], false)
  }

  // How many elements the option element at rest[0] takes, reading on from place, and whether
  // scanning stops inside it. An element that stops it should have been one bad option.
  datatype Extent = Extent(taken: nat, stops: bool)

  function ExtentOf(c: Config, place: string, whole: bool, rest: seq<string>): (e: Extent)
    requires place != "" && rest != []
    ensures 1 <= e.taken <= |rest|
    decreases |place|
  {
    match ReadOption(c, place, whole, rest)
    case Stop => Extent(1, true)
    case Reading(_, taken, after, _) => if after == "" then Extent(taken, false) else ExtentOf(c, after, false, rest)
  }

  // What one call gives its caller.
  datatype Got = Got(code: int, optarg: Option<string>)

  // What reading on from place gives, up to the end of the element or the stop inside it.
  function ReadIn(c: Config, place: string, whole: bool, rest: seq<string>): seq<Got>
    requires place != "" && rest != []
    decreases |place|
  {
    match ReadOption(c, place, whole, rest)
    case Stop => []
    case Reading(code, _, after, optarg) =>
      [Got(code, optarg)] + if after == "" then [] else ReadIn(c, after, false, rest)
  }

  // One option more or less of an element: the last one, one before others, or a stop.
  lemma LastOfElement(c: Config, place: string, whole: bool, rest: seq<string>)
    requires place != "" && rest != []
    requires var r := ReadOption(c, place, whole, rest); r.Reading? && r.place == ""
    ensures var r := ReadOption(c, place, whole, rest);
            ReadIn(c, place, whole, rest) == [Got(r.code, r.optarg)]
            && ExtentOf(c, place, whole, rest) == Extent(r.taken, false)
  {
    hide ReadOption;
  }

  lemma OneOfElement(c: Config, place: string, whole: bool, rest: seq<string>, after: string)
    requires place != "" && rest != [] && after != ""
    requires var r := ReadOption(c, place, whole, rest); r.Reading? && r.place == after
    ensures var r := ReadOption(c, place, whole, rest);
            ReadIn(c, place, whole, rest) == [Got(r.code, r.optarg)] + ReadIn(c, after, false, rest)
            && ExtentOf(c, place, whole, rest) == ExtentOf(c, after, false, rest)
  {
    hide ReadOption;
  }

  // Scanning can stop inside an element only when no long options are given and the element
  // ends in a '-' that the letters do not list.
  lemma {:induction false} StopsOnlyAtFinalDash(c: Config, place: string, whole: bool, rest: seq<string>)
    requires place != "" && rest != []
    requires whole ==> place[0] in c.Letters()
    requires ExtentOf(c, place, whole, rest).stops
    ensures c.longOptions == None && '-' !in c.Letters() && place[|place| - 1] == '-'
    decreases |place|
  {
    var r := ReadOption(c, place, whole, rest);
    if r.Reading? {
      StopsOnlyAtFinalDash(c, r.place, false, rest);
      assert r.place == place[1..];
    }
  }

  // ---------------------------------------------------------------- which clusters stop a scan

  // A letter that takes an argument, which is the rest of its cluster if there is any.
  predicate Takes(c: Config, ch: char) {
    ch != ':' && ch in c.Letters() && CharAt(c.Letters(), IndexOf(c.Letters(), ch) + 1) == ':'
  }

  // No letter before the last takes the rest of the cluster as its argument.
  predicate ReadThrough(c: Config, cluster: string) {
    forall i | 0 <= i < |cluster| - 1 :: !Takes(c, cluster[i])
  }

  // The cluster's last character is read as an option, and is a '-'.
  predicate BareDash(c: Config, cluster: string)
    requires cluster != ""
  {
    cluster[|cluster| - 1] == '-' && ReadThrough(c, cluster)
  }

  // The cluster's last letter is read as an option, and needs the next element as its argument.
  predicate AsksNext(c: Config, cluster: string)
    requires cluster != ""
  {
    var ch := cluster[|cluster| - 1];
    Takes(c, ch) && CharAt(c.Letters(), IndexOf(c.Letters(), ch) + 2) != ':' && ReadThrough(c, cluster)
  }

  // Elements taken by the cluster at the front of n elements.
  function ClusterTakes(c: Config, cluster: string, n: nat): nat
    requires cluster != ""
  {
    if AsksNext(c, cluster) && n > 1 then 2 else 1
  }

  lemma ReadThroughStep(c: Config, cluster: string)
    requires |cluster| > 1
    ensures ReadThrough(c, cluster) <==> !Takes(c, cluster[0]) && ReadThrough(c, cluster[1..])
  {
    if !Takes(c, cluster[0]) && ReadThrough(c, cluster[1..]) {
      forall i | 0 <= i < |cluster| - 1
        ensures !Takes(c, cluster[i])
      {
        if i > 0 {
          assert cluster[i] == cluster[1..][i - 1];
        }
      }
    }
    if ReadThrough(c, cluster) {
      assert forall i | 0 <= i < |cluster| - 2 :: cluster[1..][i] == cluster[i + 1];
    }
  }

  lemma AllRead(c: Config, cluster: string)
    requires |cluster| == 1
    ensures ReadThrough(c, cluster)
  {
  }

  // What reading one letter of a cluster does.
  lemma LetterRead(c: Config, place: string, rest: seq<string>)
    requires c.longOptions == None && '-' !in c.Letters() && place != "" && rest != []
    ensures place == "-" ==> ReadOption(c, place, false, rest) == Stop && !Takes(c, '-')
    ensures place != "-" ==> ReadOption(c, place, false, rest).Reading?
    ensures place != "-" && !Takes(c, place[0]) ==>
              var r := ReadOption(c, place, false, rest);
              r.place == place[1..] && (r.place == "" ==> r.taken == 1)
    ensures Takes(c, place[0]) ==>
              var r := ReadOption(c, place, false, rest);
              r.place == "" && r.taken == ClusterTakes(c, place[..1], if |place| == 1 then |rest| else 1)
  {
    var oli := IndexOf(c.Letters(), place[0]);
    assert oli == |c.Letters()| <==> place[0] !in c.Letters();
  }

  // Without long options and a listed '-', a cluster stops the scan exactly when it ends in a '-'
  // that no letter before it takes into its argument.
  lemma {:induction false} ClusterExtent(c: Config, place: string, rest: seq<string>)
    requires c.longOptions == None && '-' !in c.Letters() && place != "" && rest != []
    ensures ExtentOf(c, place, false, rest) == Extent(ClusterTakes(c, place, |rest|), BareDash(c, place))
    decreases |place|
  {
    hide ReadOption, IndexOf, CharAt, Takes, ReadThrough;
    LetterRead(c, place, rest);
    if |place| > 1 {
      ReadThroughStep(c, place);
      if !Takes(c, place[0]) {
        ClusterExtent(c, place[1..], rest);
      }
    } else {
      assert place[1..] == "" && place[..1] == place;
      AllRead(c, place);
    }
  }

  // ---------------------------------------------------------------- the whole vector

  // What scanning should make of the elements: options with their arguments (and a final
  // "--"), non-options, and the part after "--" that is not scanned, each in original order.
  // read is what the calls give one after the other until -1 ends them, and clean says that no
  // element on the way stops the scan.
  datatype Split = Split(opts: seq<string>, nonopts: seq<string>, rest: seq<string>, read: seq<Got>, clean: bool)

  function SplitArgs(c: Config, args: seq<string>): Split
    decreases |args|, 1
  {
    if args == [] then Split([], [], [], [], true)
    else if NonOption(c, args[0]) then
      var s := SplitArgs(c, args[1..]);
      s.(nonopts := [args[0]] + s.nonopts)
    else if args[0] == DASH_DASH then Split([args[0]], [], args[1..], [], true)
    else SplitFrom(c, FirstPlace(args[0]).0, FirstPlace(args[0]).1, args)
  }

  // The same when the option element args[0] has been read up to place.
  function SplitFrom(c: Config, place: string, whole: bool, args: seq<string>): Split
    requires place != "" && args != []
    decreases |args|, 0
  {
    var e := ExtentOf(c, place, whole, args);
    var s := SplitArgs(c, args[e.taken..]);
    s.(opts := args[..e.taken] + s.opts, clean := s.clean && !e.stops,
       read := ReadIn(c, place, whole, args) + if e.stops then [] else s.read)
  }

  // Splitting loses nothing: each part is a subsequence in original order, and together they
  // are a rearrangement of the elements.
  lemma {:induction false} SplitIsPermutation(c: Config, args: seq<string>)
    ensures var s := SplitArgs(c, args);
            multiset(s.opts + s.nonopts + s.rest) == multiset(args)
    decreases |args|
  {
    hide SplitFrom;
    if args == [] {
    } else if NonOption(c, args[0]) {
      SplitIsPermutation(c, args[1..]);
      var s := SplitArgs(c, args[1..]);
      InFront([args[0]], s.opts, s.nonopts, s.rest, args[1..]);
      assert args == [args[0]] + args[1..];
    } else if args[0] == DASH_DASH {
      assert args == [args[0]] + args[1..] == [args[0]] + [] + args[1..];
    } else {
      SplitFromIsPermutation(c, FirstPlace(args[0]).0, FirstPlace(args[0]).1, args);
    }
  }

  lemma SplitFromIsPermutation(c: Config, place: string, whole: bool, args: seq<string>)
    requires place != "" && args != []
    ensures var s := SplitFrom(c, place, whole, args);
            multiset(s.opts + s.nonopts + s.rest) == multiset(args)
    decreases |args|, 0
  {
    hide SplitArgs, ExtentOf;
    var n := ExtentOf(c, place, whole, args).taken;
    SplitIsPermutation(c, args[n..]);
    var s := SplitArgs(c, args[n..]);
    InFront(args[..n], s.opts, s.nonopts, s.rest, args[n..]);
    assert args == args[..n] + args[n..];
  }

  // Elements put in front of the first or the second of three parts.
  lemma InFront(x: seq<string>, opts: seq<string>, nonopts: seq<string>, rest: seq<string>, all: seq<string>)
    requires multiset(opts + nonopts + rest) == multiset(all)
    ensures multiset(x + opts + nonopts + rest) == multiset(x + all)
    ensures multiset(opts + (x + nonopts) + rest) == multiset(x + all)
  {
    assert x + opts + nonopts + rest == x + (opts + nonopts + rest);
  }

  lemma {:induction false} SplitNonOptions(c: Config, args: seq<string>)
    ensures forall x | x in SplitArgs(c, args).nonopts :: NonOption(c, x)
    decreases |args|
  {
    if args == [] {
    } else if NonOption(c, args[0]) {
      SplitNonOptions(c, args[1..]);
    } else if args[0] != DASH_DASH {
      var e := ExtentOf(c, FirstPlace(args[0]).0, FirstPlace(args[0]).1, args);
      SplitNonOptions(c, args[e.taken..]);
    }
  }

  // With long options given, or '-' among the letters, nothing ever stops a scan.
  lemma {:induction false} AlwaysClean(c: Config, args: seq<string>)
    requires c.longOptions.Some? || '-' in c.Letters()
    ensures SplitArgs(c, args).clean
    decreases |args|
  {
    if args == [] {
    } else if NonOption(c, args[0]) {
      AlwaysClean(c, args[1..]);
    } else if args[0] != DASH_DASH {
      var first := FirstPlace(args[0]);
      var e := ExtentOf(c, first.0, first.1, args);
      if e.stops {
        StopsOnlyAtFinalDash(c, first.0, first.1, args);
      }
      AlwaysClean(c, args[e.taken..]);
    }
  }

  // Some element that is scanned as an option is a cluster with a bare '-' at its end. Arguments of
  // options and what follows "--" are not scanned.
  predicate MeetsBareDash(c: Config, args: seq<string>)
    decreases |args|
  {
    if args == [] || args[0] == DASH_DASH then false
    else if args[0] == "" || args[0] == "-" || args[0][0] != '-' then MeetsBareDash(c, args[1..])
    else BareDashFrom(c, args[0][1..], args)
  }

  // The same when the cluster at the front has been read up to place.
  predicate BareDashFrom(c: Config, place: string, args: seq<string>)
    requires place != "" && args != []
    decreases |args|, 0
  {
    BareDash(c, place) || MeetsBareDash(c, args[ClusterTakes(c, place, |args|)..])
  }

  // What a caller can test before the scan: no long options are given, '-' is not among the
  // letters, and the scan will meet a bare '-'.
  predicate WillStop(c: Config, args: seq<string>) {
    c.longOptions == None && '-' !in c.Letters() && MeetsBareDash(c, args)
  }

  // A scan gets through exactly when that test fails.
  lemma {:induction false} CleanExactly(c: Config, args: seq<string>)
    ensures SplitArgs(c, args).clean <==> !WillStop(c, args)
    decreases |args|, 1
  {
    if c.longOptions.Some? || '-' in c.Letters() {
      AlwaysClean(c, args);
    } else if args == [] || args[0] == DASH_DASH {
    } else if NonOption(c, args[0]) {
      CleanExactly(c, args[1..]);
    } else {
      CleanExactlyFrom(c, args[0][1..], args);
    }
  }

  lemma {:induction false} CleanExactlyFrom(c: Config, place: string, args: seq<string>)
    requires c.longOptions == None && '-' !in c.Letters() && place != "" && args != []
    ensures SplitFrom(c, place, false, args).clean <==> !BareDashFrom(c, place, args)
    decreases |args|, 0
  {
    ClusterExtent(c, place, args);
    CleanExactly(c, args[ClusterTakes(c, place, |args|)..]);
  }

  // With long options or a listed '-', a scan gets through from inside an element as well.
  lemma AlwaysCleanFrom(c: Config, place: string, whole: bool, args: seq<string>)
    requires c.longOptions.Some? || '-' in c.Letters()
    requires place != "" && args != [] && (whole ==> place[0] in c.Letters())
    ensures SplitFrom(c, place, whole, args).clean
  {
    var e := ExtentOf(c, place, whole, args);
    AlwaysClean(c, args[e.taken..]);
    if e.stops {
      StopsOnlyAtFinalDash(c, place, whole, args);
    }
  }

  // Without either, a cluster that ends in '-' stops the scan: here "-a-" after a non-option,
  // which then stays in front of it.
  lemma BareDashStops()
    ensures var c := Config("a", None, true, false, false);
            c.Valid() && c.Permuting() && !SplitArgs(c, ["x", "-a-"]).clean
  {
    var c: Config := Config("a", None, true, false, false);
    var args := ["x", "-a-"];
    var rest := ["-a-"];
    assert args[1..] == rest;
    assert IndexOf("a", 'a') == 0;
    assert "-a-"[1..] == "a-" && "a-"[1..] == "-" && "-"[1..] == "";
    assert ReadOption(c, "a-", false, rest) == Reading('a' as int, 0, "-", None);
    assert ReadOption(c, "-", false, rest) == Stop;
    assert ExtentOf(c, "-", false, rest) == Extent(1, true);
    assert ExtentOf(c, "a-", false, rest) == Extent(1, true);
    assert !NonOption(c, "-a-");
    assert !SplitFrom(c, "a-", false, rest).clean;
    assert !SplitArgs(c, rest).clean;
    assert NonOption(c, "x");
  }
}
