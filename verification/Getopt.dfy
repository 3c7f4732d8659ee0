// The option scanner: static scanning state, one option per call, and the permutation of
// non-options behind the options as the scan proceeds.
module Getopt {
  import opened Collections
  import opened OptionSyntax
  import opened Permute

  // The elements up to optind are those before the scan, then the options met, with the
  // non-options met still standing where they were found or were last moved to; the first
  // option element after them, if any, is not a non-option.
  ghost predicate ArrangedAt(c: Config, nargv: seq<string>, optind: nat, nonoptStart: int, nonoptEnd: int,
                             before: seq<string>, opts: seq<string>, nonopts: seq<string>)
  {
    && optind <= |nargv|
    && (forall x | x in nonopts :: NonOption(c, x))
    && if nonoptStart == -1 then
         nonoptEnd == -1 && nonopts == [] && nargv[..optind] == before + opts
       else
         && nonopts != [] && |before| <= nonoptStart <= |before| + |opts|
         && (nonoptEnd == -1 ==> nonoptStart == |before| + |opts|)
         && (nonoptEnd != -1 ==> nonoptEnd == nonoptStart + |nonopts|)
         && var done := nonoptStart - |before|;
            && nargv[..optind] == before + opts[..done] + nonopts + opts[done..]
            && (done < |opts| ==> !NonOption(c, opts[done]))
  }

  lemma OptionElement(c: Config, arg: string)
    requires !NonOption(c, arg)
    ensures arg != "" && arg[0] == '-' && (|arg| > 1 && arg[1..] == "-" ==> arg == DASH_DASH)
  {
    if |arg| > 1 {
      assert arg == [arg[0]] + arg[1..];
    }
  }

  lemma DashesAreOption(c: Config)
    ensures !NonOption(c, DASH_DASH)
  {
  }

  lemma TwoParts(s: seq<string>, n: nat, front: seq<string>, rest: seq<string>)
    requires n <= |s| && s[..n] == front && s[n..] == rest
    ensures s == front + rest
  {
  }

  lemma NothingSkipped(c: Config, nargv: seq<string>, optind: nat, nonoptStart: int, nonoptEnd: int,
                       before: seq<string>, opts: seq<string>, nonopts: seq<string>)
    requires ArrangedAt(c, nargv, optind, nonoptStart, nonoptEnd, before, opts, nonopts) && nonoptStart == -1
    ensures nonoptEnd == -1 && nonopts == [] && (forall x | x in nonopts :: NonOption(c, x))
    ensures nargv[..optind] == before + opts + nonopts && optind == |before| + |opts|
  {
    assert |nargv[..optind]| == optind;
  }

  lemma SkippedLast(c: Config, nargv: seq<string>, optind: nat, nonoptStart: int,
                    before: seq<string>, opts: seq<string>, nonopts: seq<string>)
    requires ArrangedAt(c, nargv, optind, nonoptStart, -1, before, opts, nonopts) && nonoptStart != -1
    ensures nonoptStart == |before| + |opts| && (forall x | x in nonopts :: NonOption(c, x))
    ensures nargv[..optind] == before + opts + nonopts
  {
    assert opts[..|opts|] == opts && opts[|opts|..] == [];
  }

  // A non-option that follows the non-options met joins them.
  lemma SkipOne(c: Config, nargv: seq<string>, optind: nat,
                before: seq<string>, opts: seq<string>, nonopts: seq<string>)
    requires optind < |nargv| && NonOption(c, nargv[optind]) && (forall x | x in nonopts :: NonOption(c, x))
    requires nargv[..optind] == before + opts + nonopts
    ensures ArrangedAt(c, nargv, optind + 1, |before| + |opts|, -1, before, opts, nonopts + [nargv[optind]])
  {
    assert nargv[..optind + 1] == nargv[..optind] + [nargv[optind]];
    assert opts[..|opts|] == opts && opts[|opts|..] == [];
  }

  lemma SkippedCount(c: Config, nargv: seq<string>, optind: nat, nonoptStart: int, nonoptEnd: int,
                     before: seq<string>, opts: seq<string>, nonopts: seq<string>)
    requires ArrangedAt(c, nargv, optind, nonoptStart, nonoptEnd, before, opts, nonopts) && nonoptEnd != -1
    ensures nonoptEnd - nonoptStart == |nonopts| && optind == |before| + |opts| + |nonopts|
    ensures forall x | x in nonopts :: NonOption(c, x)
  {
    assert |nargv[..optind]| == optind;
  }

  // Reaching an option element closes off the non-options met before it.
  lemma CloseOff(c: Config, nargv: seq<string>, optind: nat, nonoptStart: int,
                 before: seq<string>, opts: seq<string>, nonopts: seq<string>)
    requires ArrangedAt(c, nargv, optind, nonoptStart, -1, before, opts, nonopts) && nonoptStart != -1
    ensures ArrangedAt(c, nargv, optind, nonoptStart, optind, before, opts, nonopts)
  {
    assert |nargv[..optind]| == optind;
  }

  // The option element at optind and its arguments, n elements in all, join the options.
  lemma TakeElements(c: Config, nargv: seq<string>, optind: nat, n: nat, nonoptStart: int, nonoptEnd: int,
                     before: seq<string>, opts: seq<string>, nonopts: seq<string>)
    requires ArrangedAt(c, nargv, optind, nonoptStart, nonoptEnd, before, opts, nonopts)
    requires 1 <= n <= |nargv| - optind
    requires !NonOption(c, nargv[optind]) && (nonoptStart != -1 ==> nonoptEnd != -1)
    ensures ArrangedAt(c, nargv, optind + n, nonoptStart, nonoptEnd, before, opts + nargv[optind..optind + n], nonopts)
    ensures nonoptEnd != -1 ==> nonoptEnd < optind + n
  {
    var taken := nargv[optind..optind + n];
    assert nargv[..optind + n] == nargv[..optind] + taken;
    if nonoptStart == -1 {
      assert before + opts + taken == before + (opts + taken);
    } else {
      assert |nargv[..optind]| == |before| + |opts| + |nonopts|;
      InsertAfter(before, opts, nonoptStart - |before|, nonopts, taken);
    }
  }

  lemma InsertAfter(before: seq<string>, opts: seq<string>, done: nat, nonopts: seq<string>, taken: seq<string>)
    requires done <= |opts|
    ensures before + opts[..done] + nonopts + opts[done..] + taken
         == before + (opts + taken)[..done] + nonopts + (opts + taken)[done..]
  {
    var now := opts + taken;
    assert now[..done] == opts[..done] && now[done..] == opts[done..] + taken;
  }

  // The blocks that permute_args is given.
  lemma Blocks(c: Config, nargv: seq<string>, optind: nat, nonoptStart: int, nonoptEnd: int,
               before: seq<string>, opts: seq<string>, nonopts: seq<string>)
    requires ArrangedAt(c, nargv, optind, nonoptStart, nonoptEnd, before, opts, nonopts)
    requires nonoptEnd != -1 && nonoptEnd < optind
    ensures |before| <= nonoptStart < nonoptEnd && nonoptStart - |before| <= |opts|
    ensures nargv[..nonoptStart] == before + opts[..nonoptStart - |before|]
    ensures nargv[nonoptStart..nonoptEnd] == nonopts
    ensures nargv[nonoptEnd..optind] == opts[nonoptStart - |before|..]
  {
    var all := nargv[..optind];
    assert nargv[..nonoptStart] == all[..nonoptStart];
    assert nargv[nonoptStart..nonoptEnd] == all[nonoptStart..nonoptEnd];
    assert nargv[nonoptEnd..optind] == all[nonoptEnd..optind];
  }

  lemma BlocksExchanged(was: seq<string>, now: seq<string>, optind: nat, nonoptStart: nat, nonoptEnd: nat,
                        before: seq<string>, opts: seq<string>, nonopts: seq<string>)
    requires |before| <= nonoptStart <= nonoptEnd <= optind <= |was| && nonoptStart - |before| <= |opts|
    requires was[..nonoptStart] == before + opts[..nonoptStart - |before|]
    requires was[nonoptStart..nonoptEnd] == nonopts
    requires was[nonoptEnd..optind] == opts[nonoptStart - |before|..]
    requires now == was[..nonoptStart] + was[nonoptEnd..optind] + was[nonoptStart..nonoptEnd] + was[optind..]
    ensures |now| == |was| && now[..optind] == before + opts + nonopts && now[optind..] == was[optind..]
  {
    var d := nonoptStart - |before|;
    assert opts[..d] + opts[d..] == opts;
    assert now == before + (opts[..d] + opts[d..]) + nonopts + was[optind..];
  }

  // Having skipped from args0 to args, the non-options grew from n0 to n1 and the options and
  // the rest that remain to come are the same.
  ghost predicate SkippedTo(c: Config, n0: seq<string>, args0: seq<string>, n1: seq<string>, args1: seq<string>) {
    var s0, s1 := SplitArgs(c, args0), SplitArgs(c, args1);
    && s0.opts == s1.opts && s0.rest == s1.rest && s0.clean == s1.clean && s0.read == s1.read
    && n0 + s0.nonopts == n1 + s1.nonopts
  }

  lemma SkippedSelf(c: Config, n: seq<string>, args: seq<string>)
    ensures SkippedTo(c, n, args, n, args)
  {
  }

  lemma SkipStep(c: Config, n0: seq<string>, args0: seq<string>, n1: seq<string>, args1: seq<string>)
    requires SkippedTo(c, n0, args0, n1, args1) && args1 != [] && NonOption(c, args1[0])
    ensures SkippedTo(c, n0, args0, n1 + [args1[0]], args1[1..])
  {
    var m := SplitArgs(c, args1[1..]).nonopts;
    assert n1 + ([args1[0]] + m) == n1 + [args1[0]] + m;
  }

  // A scan that stops with an option element still at optind has not reached any arrangement
  // in which that element follows the options met.
  lemma StoppedShort(c: Config, nargv: seq<string>, optind: nat, nonoptStart: int, nonoptEnd: int,
                     before: seq<string>, opts: seq<string>, nonopts: seq<string>,
                     o: seq<string>, n: seq<string>, r: seq<string>)
    requires ArrangedAt(c, nargv, optind, nonoptStart, nonoptEnd, before, opts, nonopts)
    requires optind < |nargv| && !NonOption(c, nargv[optind]) && o != [] && o[0] == nargv[optind]
    ensures nargv != before + (opts + o) + (nonopts + n) + r || optind != |before| + |opts| + |o|
  {
    assert |nargv[..optind]| == optind;
    if nonoptStart != -1 {
      var done := nonoptStart - |before|;
      var goal := before + (opts + o) + (nonopts + n) + r;
      assert nargv[..optind][nonoptStart] == nonopts[0];
      assert goal[nonoptStart] == (opts + o)[done];
      assert NonOption(c, nargv[nonoptStart]) && !NonOption(c, goal[nonoptStart]);
    }
  }

  // The vector and index at which a scan should end.
  ghost function GoalOf(before: seq<string>, opts: seq<string>, nonopts: seq<string>, s: Split): (seq<string>, nat) {
    (before + (opts + s.opts) + (nonopts + s.nonopts) + s.rest, |before| + |opts| + |s.opts|)
  }

  lemma GoalAfterTaking(before: seq<string>, opts: seq<string>, nonopts: seq<string>, taken: seq<string>,
                        s: Split, t: Split)
    requires t.opts == taken + s.opts && t.nonopts == s.nonopts && t.rest == s.rest
    ensures GoalOf(before, opts, nonopts, t) == GoalOf(before, opts + taken, nonopts, s)
  {
    assert opts + (taken + s.opts) == (opts + taken) + s.opts;
  }

  // What a scan gives does not bear on where it ends.
  lemma GoalAfterReading(before: seq<string>, opts: seq<string>, nonopts: seq<string>, s: Split, read: seq<Got>)
    ensures GoalOf(before, opts, nonopts, s.(read := read)) == GoalOf(before, opts, nonopts, s)
  {
  }

  // What reading one option at place does to the split still to come: stopping leaves the
  // vector short of it, finishing the element moves the element to the options, and reading a
  // letter of a cluster changes nothing.
  lemma AfterStop(c: Config, nargv: seq<string>, optind: nat, nonoptStart: int, nonoptEnd: int,
                  before: seq<string>, opts: seq<string>, nonopts: seq<string>, place: string, whole: bool)
    requires ArrangedAt(c, nargv, optind, nonoptStart, nonoptEnd, before, opts, nonopts)
    requires optind < |nargv| && !NonOption(c, nargv[optind])
    requires place != "" && ReadOption(c, place, whole, nargv[optind..]) == Stop
    ensures var s := SplitFrom(c, place, whole, nargv[optind..]);
            !s.clean && s.read == [] && (nargv, optind) != GoalOf(before, opts, nonopts, s)
  {
    var s := SplitFrom(c, place, whole, nargv[optind..]);
    StoppedShort(c, nargv, optind, nonoptStart, nonoptEnd, before, opts, nonopts, s.opts, s.nonopts, s.rest);
  }

  lemma AfterElement(c: Config, nargv: seq<string>, optind: nat, nonoptStart: int, nonoptEnd: int,
                     before: seq<string>, opts: seq<string>, nonopts: seq<string>, place: string, whole: bool, n: nat)
    requires ArrangedAt(c, nargv, optind, nonoptStart, nonoptEnd, before, opts, nonopts)
    requires optind < |nargv| && !NonOption(c, nargv[optind]) && (nonoptStart != -1 ==> nonoptEnd != -1)
    requires place != ""
    requires var r := ReadOption(c, place, whole, nargv[optind..]); r.Reading? && r.place == "" && r.taken == n
    ensures 1 <= n <= |nargv| - optind
    ensures ArrangedAt(c, nargv, optind + n, nonoptStart, nonoptEnd, before, opts + nargv[optind..optind + n], nonopts)
    ensures nonoptEnd != -1 ==> nonoptEnd < optind + n
    ensures var s, s' := SplitFrom(c, place, whole, nargv[optind..]), SplitArgs(c, nargv[optind + n..]);
            var r := ReadOption(c, place, whole, nargv[optind..]);
            s.clean == s'.clean && s.read == [Got(r.code, r.optarg)] + s'.read &&
            GoalOf(before, opts, nonopts, s) == GoalOf(before, opts + nargv[optind..optind + n], nonopts, s')
  {
    hide ReadOption, ReadIn, ExtentOf, SplitArgs, ArrangedAt, GoalOf, NonOption;
    var args := nargv[optind..];
    LastOfElement(c, place, whole, args);
    assert args[..n] == nargv[optind..optind + n] && args[n..] == nargv[optind + n..];
    TakeElements(c, nargv, optind, n, nonoptStart, nonoptEnd, before, opts, nonopts);
    GoalAfterTaking(before, opts, nonopts, args[..n], SplitArgs(c, args[n..]), SplitFrom(c, place, whole, args));
  }

  lemma AfterLetter(c: Config, place: string, whole: bool, args: seq<string>, after: string)
    requires place != "" && args != [] && after != ""
    requires var r := ReadOption(c, place, whole, args); r.Reading? && r.place == after
    ensures var r, s := ReadOption(c, place, whole, args), SplitFrom(c, after, false, args);
            SplitFrom(c, place, whole, args) == s.(read := [Got(r.code, r.optarg)] + s.read)
  {
    hide ReadOption, ReadIn, ExtentOf, SplitArgs;
    OneOfElement(c, place, whole, args, after);
  }

  lemma SkippedGoal(c: Config, before: seq<string>, opts: seq<string>, n0: seq<string>, args0: seq<string>,
                    n1: seq<string>, args1: seq<string>)
    requires SkippedTo(c, n0, args0, n1, args1)
    ensures GoalOf(before, opts, n0, SplitArgs(c, args0)) == GoalOf(before, opts, n1, SplitArgs(c, args1))
    ensures SplitArgs(c, args0).clean == SplitArgs(c, args1).clean
    ensures SplitArgs(c, args0).read == SplitArgs(c, args1).read
  {
  }

  lemma GoalAtEnd(c: Config, before: seq<string>, opts: seq<string>, nonopts: seq<string>)
    ensures SplitArgs(c, []).clean && SplitArgs(c, []).read == []
    ensures GoalOf(before, opts, nonopts, SplitArgs(c, [])) == (before + opts + nonopts + [], |before| + |opts|)
  {
    assert opts + [] == opts && nonopts + [] == nonopts;
  }

  lemma SplitAtOption(c: Config, args: seq<string>)
    requires args != [] && !NonOption(c, args[0]) && args[0] != DASH_DASH
    ensures SplitArgs(c, args) == SplitFrom(c, FirstPlace(args[0]).0, FirstPlace(args[0]).1, args)
  {
  }

  lemma GoalAtDashes(c: Config, before: seq<string>, opts: seq<string>, nonopts: seq<string>, args: seq<string>)
    requires args != [] && args[0] == DASH_DASH
    ensures SplitArgs(c, args).clean && SplitArgs(c, args).read == []
    ensures GoalOf(before, opts, nonopts, SplitArgs(c, args))
         == (before + (opts + [DASH_DASH]) + nonopts + args[1..], |before| + |opts| + 1)
  {
    assert SplitArgs(c, args) == Split([DASH_DASH], [], args[1..], [], true);
    assert nonopts + [] == nonopts;
  }

  class Scanner {
    var optind: nat
    var optreset: bool
    var optarg: Option<string>
    var place: string          // unread rest of the current element, "" between elements
    var whole: bool            // place is an element from its very start
    var nonoptStart: int       // first skipped non-option, or -1
    var nonoptEnd: int         // first option after the skipped non-options, or -1

    // What the scan has sorted out so far: everything before it started, the options and the
    // non-options met.
    ghost var before: seq<string>
    ghost var opts: seq<string>
    ghost var nonopts: seq<string>

    constructor (nargv: array<string>)
      requires nargv.Length >= 1
      ensures fresh(this) && optind == 1 && !optreset && place == ""
      ensures nonoptStart == -1 && nonoptEnd == -1
      ensures before == nargv[..1] && opts == [] && nonopts == []
      ensures forall c: Config :: Ready(c, nargv[..])
    {
      optind, optreset, optarg, place, whole := 1, false, None, "", false;
      nonoptStart, nonoptEnd := -1, -1;
      before, opts, nonopts := nargv[..1], [], [];
    }

    ghost predicate Arranged(c: Config, nargv: seq<string>)
      reads this
    {
      optind <= |nargv| && ArrangedAt(c, nargv, optind, nonoptStart, nonoptEnd, before, opts, nonopts)
    }

    // Between calls: inside an element the non-options met are already closed off; between
    // elements at least one option follows them.
    ghost predicate Ready(c: Config, nargv: seq<string>)
      reads this
    {
      && Arranged(c, nargv) && !optreset && optind > 0
      && (place != "" ==> optind < |nargv| && !whole && !NonOption(c, nargv[optind]))
      && (place != "" && nonoptStart != -1 ==> nonoptEnd != -1)
      && (place == "" && nonoptEnd != -1 ==> nonoptEnd < optind)
    }

    // A scan about to start afresh at optind.
    ghost predicate Restarted(nargv: seq<string>)
      reads this
    {
      var start := if optind == 0 then 1 else optind;
      (optind == 0 || optreset) && start <= |nargv| && before == nargv[..start] && opts == [] && nonopts == []
    }

    // What is still to be sorted out.
    ghost function Remaining(c: Config, nargv: seq<string>): Split
      reads this
    {
      var at := if optind == 0 then 1 else optind;
      if at > |nargv| then SplitArgs(c, [])
      else if at == |nargv| || optind == 0 || optreset || place == "" then SplitArgs(c, nargv[at..])
      else SplitFrom(c, place, whole, nargv[at..])
    }

    // What is still to be scanned holds a bare '-' that will stop it: a test on the elements and
    // the option letters.
    predicate Hindered(c: Config, nargv: seq<string>)
      reads this
    {
      var at := if optind == 0 then 1 else optind;
      if at >= |nargv| then false
      else if optind == 0 || optreset || place == "" then WillStop(c, nargv[at..])
      else c.longOptions == None && '-' !in c.Letters() && BareDashFrom(c, place, nargv[at..])
    }

    // The scan gets through exactly when that test fails.
    lemma CleanIsUnhindered(c: Config, nargv: seq<string>)
      requires Ready(c, nargv) || Restarted(nargv)
      ensures Remaining(c, nargv).clean <==> !Hindered(c, nargv)
    {
      hide SplitArgs, SplitFrom, ArrangedAt, BareDashFrom;
      var at := if optind == 0 then 1 else optind;
      CleanExactly(c, []);
      CleanExactly(c, nargv[at..]);
      assert at == |nargv| ==> nargv[at..] == [];
      if at < |nargv| && place != "" && !(optind == 0 || optreset) {
        if c.longOptions.Some? || '-' in c.Letters() {
          AlwaysCleanFrom(c, place, false, nargv[at..]);
        } else {
          CleanExactlyFrom(c, place, nargv[at..]);
        }
      }
    }

    // Where the scan should end: the vector and optind.
    ghost function Goal(c: Config, nargv: seq<string>): (seq<string>, nat)
      reads this
    {
      GoalOf(before, opts, nonopts, Remaining(c, nargv))
    }

    // parse_long_options: reads the long option at place with optind at its element.
    method ParseLongOptions(nargv: array<string>, c: Config, shortToo: bool) returns (code: int)
      requires optind < nargv.Length && c.longOptions.Some? && optarg == None
      modifies this`optind, this`optarg
      ensures var r := ReadLong(c, place, nargv[old(optind) + 1..], shortToo);
              if r.Long? then code == r.code && optind == old(optind) + r.taken && optarg == r.optarg
              else code == -1 && optind == old(optind) && optarg == None
    {
      ghost var at := optind;
      var longs := c.longOptions.value;
      optind := optind + 1;
      ghost var tail := nargv[optind..];
      var eq := IndexOf(place, '=');
      var hasEqual := None;
      if eq < |place| {
        hasEqual := Some(place[eq + 1..]);
      }
      var found := FindMatch(longs, place[..eq], shortToo);
      if found.Ambiguous? {
        return BADCH;
      }
      if found.Found? {
        var o := longs[found.index];
        if o.hasArg == NoArgument && hasEqual.Some? {
          return c.BadArg();
        }
        if o.hasArg == RequiredArgument || o.hasArg == OptionalArgument {
          if hasEqual.Some? {
            optarg := hasEqual;
          } else if o.hasArg == RequiredArgument {
            // past the last element stands the terminating null
            optarg := if optind < nargv.Length then Some(nargv[optind]) else None;
            optind := optind + 1;
          }
        }
        if o.hasArg == RequiredArgument && optarg == None {
          optind := optind - 1;
          return c.BadArg();
        }
        if optarg.Some? && hasEqual.None? && o.hasArg == RequiredArgument {
          assert tail != [] && nargv[at + 1] == tail[0];
        }
        if o.flag != 0 {
          return 0;
        }
        return o.val;
      }
      if shortToo {
        optind := optind - 1;
        return -1;
      }
      return BADCH;
    }

    // Reads one option at place: a long one where that applies, else a short one.
    method ReadOne(nargv: array<string>, c: Config) returns (code: int)
      requires place != "" && optind < nargv.Length && optarg == None
      modifies this`optind, this`optarg, this`place, this`whole
      ensures match ReadOption(c, old(place), old(whole), nargv[old(optind)..])
              case Stop => code == -1 && optind == old(optind) && place == "" && !whole
              case Reading(code', taken, after, arg) =>
                code == code' && optind == old(optind) + taken && place == after && !whole && optarg == arg
    {
      ghost var rest := nargv[optind..];
      assert rest[1..] == nargv[optind + 1..];
      assert rest[0] == nargv[optind];
      if c.longOptions.Some? && !whole && (place[0] == '-' || c.flagLongOnly) {
        var shortToo := false;
        if place[0] == '-' {
          place := place[1..];
        } else if place[0] != ':' && place[0] in c.Letters() {
          shortToo := true;
        }
        code := ParseLongOptions(nargv, c, shortToo);
        if code != -1 {
          place, whole := "", false;
          return;
        }
      }
      code := ReadLetter(nargv, c);
    }

    // -W with "W;" listed: the text after it, or the next element, is read as a long option.
    method ReadAfterW(nargv: array<string>, c: Config) returns (code: int)
      requires c.longOptions.Some? && optind < nargv.Length && optarg == None
      modifies this`optind, this`optarg, this`place
      ensures var rest := old(nargv[optind..]);
              var l := if old(place) != "" then ReadLong(c, old(place), rest[1..], false)
                       else if |rest| == 1 then Long(c.BadArg(), 0, None)
                       else ReadLong(c, rest[1], rest[2..], false);
              code == l.code && optarg == l.optarg && place == ""
              && optind == old(optind) + l.taken + if old(place) != "" then 0 else 1
    {
      hide ReadLong;
      ghost var rest := nargv[optind..];
      assert rest[1..] == nargv[optind + 1..];
      if place != "" {
      } else {
        optind := optind + 1;
        if optind >= nargv.Length {
          place := "";
          return c.BadArg();
        }
        assert rest[1] == nargv[optind];
        assert rest[2..] == rest[1..][1..] == nargv[optind + 1..];
        place := nargv[optind];
      }
      code := ParseLongOptions(nargv, c, false);
      place := "";
    }

    // A short option: one letter, known or not.
    method ReadLetter(nargv: array<string>, c: Config) returns (code: int)
      requires place != "" && optind < nargv.Length && optarg == None
      modifies this`optind, this`optarg, this`place, this`whole
      ensures match ReadShort(c, old(place), nargv[old(optind)..])
              case Stop => code == -1 && optind == old(optind) && place == "" && !whole
              case Reading(code', taken, after, arg) =>
                code == code' && optind == old(optind) + taken && place == after && !whole && optarg == arg
    {
      ghost var rest := nargv[optind..];
      assert rest[1..] == nargv[optind + 1..];
      var letters := c.Letters();
      var optchar := place[0];
      place, whole := place[1..], false;
      var oli := IndexOf(letters, optchar);
      if optchar == ':' || (optchar == '-' && place != "") || oli == |letters| {
        if optchar == '-' && place == "" {
          return -1;
        }
        if place == "" {
          optind := optind + 1;
        }
        return BADCH;
      }
      if c.longOptions.Some? && optchar == 'W' && CharAt(letters, oli + 1) == ';' {
        code := ReadAfterW(nargv, c);
        return;
      }
      code := TakeArgument(nargv, c, optchar, CharAt(letters, oli + 1), CharAt(letters, oli + 2));
    }

    // A known letter: take its argument, if it has one, from the element or the next one.
    method TakeArgument(nargv: array<string>, c: Config, optchar: char, mark: char, mark2: char) returns (code: int)
      requires optind < nargv.Length && optarg == None && optchar in c.Letters()
      modifies this`optind, this`optarg, this`place
      ensures var r := ReadArgument(c, optchar, mark, mark2, old(place), nargv[old(optind)..]);
              code == r.code && optind == old(optind) + r.taken && place == r.place && optarg == r.optarg
    {
      if mark != ':' {
        if place == "" {
          optind := optind + 1;
        }
      } else {
        optarg := None;
        if place != "" {
          optarg := Some(place);
        } else if mark2 != ':' {
          optind := optind + 1;
          if optind >= nargv.Length {
            place := "";
            return c.BadArg();
          }
          optarg := Some(nargv[optind]);
        }
        place := "";
        optind := optind + 1;
      }
      return Code(optchar);
    }

    // permute_args on the non-options met and the options after them. Both blocks are nonempty.
    method PermuteNow(nargv: array<string>, ghost c: Config)
      requires Arranged(c, nargv[..]) && nonoptEnd != -1 && nonoptEnd < optind
      modifies nargv
      ensures nonoptStart < nonoptEnd
      ensures nargv[..optind] == before + opts + nonopts
      ensures nargv[optind..] == old(nargv[optind..])
    {
      ghost var was := nargv[..];
      Blocks(c, was, optind, nonoptStart, nonoptEnd, before, opts, nonopts);
      PermuteArgs(nonoptStart, nonoptEnd, optind, nargv);
      BlocksExchanged(was, nargv[..], optind, nonoptStart, nonoptEnd, before, opts, nonopts);
      assert nargv[..optind] == nargv[..][..optind];
      assert nargv[optind..] == nargv[..][optind..];
    }

    // Between two elements of a scan.
    ghost predicate Between(c: Config, nargv: seq<string>)
      reads this
    {
      Arranged(c, nargv) && !optreset && optind > 0 && (nonoptEnd != -1 ==> nonoptEnd < optind)
    }

    // The vector is sorted out and optind stands at the first non-option.
    ghost predicate Sorted(nargv: seq<string>, rest: seq<string>)
      reads this
    {
      && nargv == before + opts + nonopts + rest && optind == |before| + |opts|
      && nonoptStart == -1 && nonoptEnd == -1 && place == ""
    }

    // End of the argument vector: permute if options follow the non-options met, and go back
    // to the first of them.
    method FinishScan(nargv: array<string>, ghost c: Config)
      requires Between(c, nargv[..]) && optind == nargv.Length
      modifies this`optind, this`place, this`nonoptStart, this`nonoptEnd, nargv
      ensures Sorted(nargv[..], [])
    {
      place := "";
      assert nargv[..] == nargv[..optind];
      if nonoptEnd != -1 {
        PermuteNow(nargv, c);
        assert nargv[..] == nargv[..optind];
        optind := optind - (nonoptEnd - nonoptStart);
      } else if nonoptStart != -1 {
        assert opts[..|opts|] == opts && opts[|opts|..] == [];
        optind := nonoptStart;
      }
      nonoptStart, nonoptEnd := -1, -1;
      assert nargv[..] == before + opts + nonopts + [];
    }

    // A non-option: close up the non-options met behind the options, then take it to them.
    method SkipNonOption(nargv: array<string>, ghost c: Config)
      requires Between(c, nargv[..]) && optind < nargv.Length && NonOption(c, nargv[optind])
      modifies this`optind, this`nonoptStart, this`nonoptEnd, this`nonopts, nargv
      ensures Between(c, nargv[..]) && optind == old(optind) + 1 && nonopts == old(nonopts + [nargv[optind]])
      ensures nargv[optind..] == old(nargv[optind + 1..])
    {
      hide ArrangedAt;
      ghost var rest, arg := nargv[optind..], nargv[optind];
      if nonoptStart == -1 {
        NothingSkipped(c, nargv[..], optind, nonoptStart, nonoptEnd, before, opts, nonopts);
        nonoptStart := optind;
      } else if nonoptEnd != -1 {
        SkippedCount(c, nargv[..], optind, nonoptStart, nonoptEnd, before, opts, nonopts);
        PermuteNow(nargv, c);
        nonoptStart := optind - (nonoptEnd - nonoptStart);
        nonoptEnd := -1;
      } else {
        SkippedLast(c, nargv[..], optind, nonoptStart, before, opts, nonopts);
      }
      assert nargv[optind] == nargv[optind..][0] == arg;
      SkipOne(c, nargv[..], optind, before, opts, nonopts);
      optind := optind + 1;
      nonopts := nonopts + [arg];
      assert nargv[optind..] == rest[1..];
    }

    // The vector is sorted by exchanging the non-options skipped, if any, with the options after
    // them.
    method SortOut(nargv: array<string>, ghost c: Config, ghost rest: seq<string>)
      requires Arranged(c, nargv[..]) && nargv[optind..] == rest && place == ""
      requires nonoptStart != -1 ==> nonoptEnd != -1
      requires nonoptEnd != -1 ==> nonoptEnd < optind
      modifies this`optind, this`nonoptStart, this`nonoptEnd, nargv
      ensures Sorted(nargv[..], rest)
    {
      hide ArrangedAt, NonOption;
      if nonoptEnd != -1 {
        SkippedCount(c, nargv[..], optind, nonoptStart, nonoptEnd, before, opts, nonopts);
        PermuteNow(nargv, c);
        TwoParts(nargv[..], optind, before + opts + nonopts, rest);
        optind := optind - (nonoptEnd - nonoptStart);
      } else {
        NothingSkipped(c, nargv[..], optind, nonoptStart, nonoptEnd, before, opts, nonopts);
        TwoParts(nargv[..], optind, before + opts + nonopts, rest);
      }
      nonoptStart, nonoptEnd := -1, -1;
    }

    // "--": it is the last option; the rest is not scanned.
    method EndAtDashes(nargv: array<string>, ghost c: Config)
      requires Arranged(c, nargv[..]) && optind < nargv.Length && nargv[optind] == DASH_DASH
      requires nonoptStart != -1 ==> nonoptEnd != -1
      modifies this`optind, this`place, this`nonoptStart, this`nonoptEnd, this`opts, nargv
      ensures opts == old(opts) + [DASH_DASH] && Sorted(nargv[..], old(nargv[optind + 1..]))
    {
      hide ArrangedAt, NonOption;
      DashesAreOption(c);
      ghost var rest := nargv[optind + 1..];
      TakeElements(c, nargv[..], optind, 1, nonoptStart, nonoptEnd, before, opts, nonopts);
      assert nargv[optind..optind + 1] == [DASH_DASH];
      optind := optind + 1;
      place := "";
      opts := opts + [DASH_DASH];
      SortOut(nargv, c, rest);
    }

    // The scanning loop: skip and move non-options until an option element, "--" or the end.
    // True if an element stands at optind to be looked at as an option.
    method FindElement(nargv: array<string>, c: Config) returns (found: bool)
      requires c.Permuting() && Between(c, nargv[..])
      modifies this`optind, this`place, this`nonoptStart, this`nonoptEnd, this`nonopts, nargv
      ensures old(optind) <= optind || !found
      ensures found ==> Between(c, nargv[..]) && optind < nargv.Length
      ensures found ==> place == nargv[optind] && !NonOption(c, place)
      ensures found ==> SkippedTo(c, old(nonopts), old(nargv[optind..]), nonopts, nargv[optind..])
      ensures !found ==> Sorted(nargv[..], []) && SkippedTo(c, old(nonopts), old(nargv[optind..]), nonopts, [])
    {
      hide SkippedTo, SplitArgs, ArrangedAt;
      ghost var n0, args0 := nonopts, nargv[optind..];
      assert SkippedTo(c, n0, args0, nonopts, nargv[optind..]) by { SkippedSelf(c, n0, args0); }
      while true
        invariant Between(c, nargv[..]) && optind >= old(optind)
        invariant SkippedTo(c, n0, args0, nonopts, nargv[optind..])
        decreases nargv.Length - optind
      {
        if optind >= nargv.Length {
          assert nargv[optind..] == [];
          FinishScan(nargv, c);
          return false;
        }
        place := nargv[optind];
        if place == "" || place[0] != '-' || (|place| == 1 && '-' !in c.Letters()) {
          assert NonOption(c, place);
          ghost var args := nargv[optind..];
          SkipStep(c, n0, args0, nonopts, args);
          place := "";
          SkipNonOption(nargv, c);
          assert nargv[optind..] == args[1..];
        } else {
          return true;
        }
      }
    }

    // At an option in the element at optind, all non-options met being closed off.
    ghost predicate AtOption(c: Config, nargv: seq<string>)
      reads this
    {
      && Arranged(c, nargv) && !optreset && optind > 0 && (nonoptStart != -1 ==> nonoptEnd != -1)
      && place != "" && optind < |nargv| && !NonOption(c, nargv[optind])
    }

    // Read one option and record the elements it completes.
    method ReadAndRecord(nargv: array<string>, c: Config) returns (code: int)
      requires AtOption(c, nargv[..]) && optarg == None
      modifies this`optind, this`optarg, this`place, this`whole, this`opts
      ensures code != -1 ==> Ready(c, nargv[..]) && optind <= nargv.Length && !optreset
      ensures code != -1 ==> optind > old(optind) || (optind == old(optind) && place != "" && |place| < |old(place)|)
      ensures code != -1 ==> Goal(c, nargv[..]) == old(Goal(c, nargv[..]))
      ensures code != -1 ==> Remaining(c, nargv[..]).clean == old(Remaining(c, nargv[..])).clean
      ensures code != -1 ==> old(Remaining(c, nargv[..])).read == [Got(code, optarg)] + Remaining(c, nargv[..]).read
      ensures code == -1 ==> !old(Remaining(c, nargv[..])).clean && (nargv[..], optind) != old(Goal(c, nargv[..]))
      ensures code == -1 ==> old(Remaining(c, nargv[..])).read == []
    {
      hide SplitFrom, SplitArgs, GoalOf, ArrangedAt, ReadOption;
      ghost var argv, at, place0, whole0 := nargv[..], optind, place, whole;
      assert ReadOption(c, place, whole, argv[at..]) == ReadOption(c, place, whole, nargv[optind..]);
      code := ReadOne(nargv, c);
      if code == -1 {
        AfterStop(c, argv, at, nonoptStart, nonoptEnd, before, opts, nonopts, place0, whole0);
      } else if place == "" {
        AfterElement(c, argv, at, nonoptStart, nonoptEnd, before, opts, nonopts, place0, whole0, optind - at);
        opts := opts + argv[at..optind];
        assert nargv[..] == argv;
      } else {
        AfterLetter(c, place0, whole0, argv[at..], place);
        GoalAfterReading(before, opts, nonopts, SplitFrom(c, place, false, argv[at..]),
                         SplitFrom(c, place0, whole0, argv[at..]).read);
        assert nargv[..] == argv;
      }
    }

    lemma RestRemains(c: Config, nargv: seq<string>)
      requires Between(c, nargv) && place == ""
      ensures Remaining(c, nargv) == SplitArgs(c, nargv[optind..])
    {
      hide SplitArgs, ArrangedAt;
      assert optind == |nargv| ==> nargv[optind..] == [];
    }

    // How a call begins: a new scan is set up, and reading goes on inside an element or between two.
    method Resume(nargv: array<string>, ghost c: Config) returns (between: bool)
      requires c.Permuting() && (Ready(c, nargv[..]) || Restarted(nargv[..]))
      modifies this`optind, this`optreset, this`optarg, this`nonoptStart, this`nonoptEnd, this`place
      ensures if between then Between(c, nargv[..]) && place == "" else AtOption(c, nargv[..])
      ensures Remaining(c, nargv[..]) == old(Remaining(c, nargv[..]))
      ensures optarg == None && optind == if old(optind) == 0 then 1 else old(optind)
      ensures !between ==> place == old(place) && place != ""
      ensures between ==> old(place) == "" || old(optreset) || old(optind) == 0
    {
      hide SplitArgs, SplitFrom, NonOption;
      if optind == 0 {
        optind, optreset := 1, true;
      }
      optarg := None;
      if optreset {
        nonoptStart, nonoptEnd := -1, -1;
        assert before + [] == before;
      }
      between := optreset || place == "";
      if between {
        optreset, place := false, "";
      }
    }

    // One call of getopt_internal: the next option's value, or -1 when scanning is over. Every
    // call but the last keeps the place where the scan will end; the last reaches it exactly
    // when nothing has stopped the scan inside an element.
    method Next(nargv: array<string>, c: Config) returns (code: int)
      requires c.Permuting() && (Ready(c, nargv[..]) || Restarted(nargv[..]))
      modifies this, nargv
      ensures code != -1 ==> Ready(c, nargv[..]) && Goal(c, nargv[..]) == old(Goal(c, nargv[..]))
      ensures code != -1 ==> Remaining(c, nargv[..]).clean == old(Remaining(c, nargv[..]).clean)
      ensures code != -1 ==> old(Remaining(c, nargv[..])).read == [Got(code, optarg)] + Remaining(c, nargv[..]).read
      ensures code == -1 ==> old(Remaining(c, nargv[..])).read == []
      ensures code != -1 ==> old(optind) <= optind <= nargv.Length && !optreset
      ensures code != -1 && optind == old(optind) ==>
                place != "" && (old(place) == "" || old(optreset) || |place| < |old(place)|)
      ensures code == -1 ==> ((nargv[..], optind) == old(Goal(c, nargv[..])) <==> old(Remaining(c, nargv[..])).clean)
    {
      hide ArrangedAt, SplitArgs, SplitFrom, GoalOf, Remaining, Between, AtOption, Ready, Restarted;
      var between := Resume(nargv, c);
      if between {
        var done := NextElement(nargv, c);
        if done {
          return -1;
        }
      }
      code := ReadAndRecord(nargv, c);
    }

    // From between two elements to the start of an option, or to the end of the scan.
    method NextElement(nargv: array<string>, c: Config) returns (done: bool)
      requires c.Permuting() && Between(c, nargv[..]) && place == ""
      modifies this`optind, this`place, this`whole, this`nonoptStart, this`nonoptEnd, this`opts, this`nonopts, nargv
      ensures done ==> old(Remaining(c, nargv[..])).read == []
      ensures done ==> old(Remaining(c, nargv[..])).clean && (nargv[..], optind) == old(Goal(c, nargv[..]))
      ensures !done ==> AtOption(c, nargv[..]) && optind >= old(optind)
      ensures !done ==> Goal(c, nargv[..]) == old(Goal(c, nargv[..]))
      ensures !done ==> Remaining(c, nargv[..]).clean == old(Remaining(c, nargv[..])).clean
      ensures !done ==> Remaining(c, nargv[..]).read == old(Remaining(c, nargv[..])).read
    {
      hide SplitFrom, SplitArgs, GoalOf, SkippedTo, ArrangedAt, NonOption;
      ghost var n0, args0 := nonopts, nargv[optind..];
      RestRemains(c, nargv[..]);
      hide Remaining;
      var found := FindElement(nargv, c);
      if !found {
        SkippedGoal(c, before, opts, n0, args0, nonopts, []);
        GoalAtEnd(c, before, opts, nonopts);
        return true;
      }
      ghost var args := nargv[optind..];
      SkippedGoal(c, before, opts, n0, args0, nonopts, args);
      done := StartElement(nargv, c, args);
    }

    // The element at optind is an option: close off the non-options skipped, and stop at "--".
    method StartElement(nargv: array<string>, c: Config, ghost args: seq<string>) returns (done: bool)
      requires Between(c, nargv[..]) && optind < nargv.Length && args == nargv[optind..]
      requires place == args[0] && !NonOption(c, place)
      modifies this`optind, this`place, this`whole, this`nonoptStart, this`nonoptEnd, this`opts, nargv
      ensures done ==> SplitArgs(c, args).clean && SplitArgs(c, args).read == []
      ensures done ==> (nargv[..], optind) == GoalOf(before, old(opts), nonopts, SplitArgs(c, args))
      ensures !done ==> AtOption(c, nargv[..]) && optind == old(optind) && opts == old(opts)
      ensures !done ==> Remaining(c, nargv[..]) == SplitArgs(c, args)
    {
      hide SplitFrom, SplitArgs, GoalOf, ArrangedAt, NonOption;
      OptionElement(c, place);
      if nonoptStart != -1 && nonoptEnd == -1 {
        CloseOff(c, nargv[..], optind, nonoptStart, before, opts, nonopts);
        nonoptEnd := optind;
      }
      whole := true;
      if |place| > 1 {
        place, whole := place[1..], false;
        if place == "-" {
          assert args[0] == DASH_DASH;
          GoalAtDashes(c, before, opts, nonopts, args);
          assert args[1..] == nargv[optind + 1..];
          EndAtDashes(nargv, c);
          return true;
        }
      }
      SplitAtOption(c, args);
      return false;
    }

    // The caller's loop: call until -1. It is given the options of the vector one after the other.
    // The vector ends as the options with their arguments in original order, any "--", the
    // non-options in original order and the unscanned rest, with optind at the first non-option,
    // exactly when no element stops the scan. Which elements do can be told from the vector and the
    // letters before the first call.
    method RunAll(nargv: array<string>, c: Config) returns (read: seq<Got>)
      requires c.Permuting() && (Ready(c, nargv[..]) || Restarted(nargv[..]))
      modifies this, nargv
      ensures read == old(Remaining(c, nargv[..])).read
      ensures (nargv[..], optind) == old(Goal(c, nargv[..])) <==> old(Remaining(c, nargv[..])).clean
      ensures (nargv[..], optind) == old(Goal(c, nargv[..])) <==> !old(Hindered(c, nargv[..]))
    {
      hide Hindered, Goal, Remaining, Ready, Restarted;
      CleanIsUnhindered(c, nargv[..]);
      ghost var goal, clean, all := Goal(c, nargv[..]), Remaining(c, nargv[..]).clean, Remaining(c, nargv[..]).read;
      read := [];
      var key := Next(nargv, c);
      while key != -1
        invariant key != -1 ==> Ready(c, nargv[..]) && optind <= nargv.Length && !optreset
        invariant key != -1 ==> Goal(c, nargv[..]) == goal && Remaining(c, nargv[..]).clean == clean
        invariant key == -1 ==> ((nargv[..], optind) == goal <==> clean)
        invariant all == read + if key == -1 then [] else [Got(key, optarg)] + Remaining(c, nargv[..]).read
        decreases key != -1, nargv.Length - optind, if place == "" then 1 else 0, |place|
      {
        read := read + [Got(key, optarg)];
        key := Next(nargv, c);
      }
    }
  }
}
