/**
 * The library's default export (mod.ts): a title or an options object,
 * followed by extra boolean and number arguments that are folded into
 * `verbose` and `version` on the options.
 */
module Mod {
  import opened Wrappers

  /** An extra argument: a boolean or a number (JavaScript numbers as integers). */
  datatype Arg = Flag(b: bool) | Num(n: int)

  /** The part of the options the default export reads and writes. */
  class Options {
    var title: string
    var verbose: Option<bool>
    var version: Option<int>

    /** The object literal `{ title: s }`. */
    constructor (title: string)
      ensures this.title == title && verbose == None && version == None
    {
      this.title := title;
      verbose := None;
      version := None;
    }
  }

  /** The first argument: a plain title, or an options object owned by the caller. */
  datatype TitleOrOptions = Title(t: string) | Given(options: Options)

  /** The two fields the extra arguments set. */
  datatype Settings = Settings(verbose: Option<bool>, version: Option<int>)

  /** One extra argument: a boolean sets `verbose`, anything else sets `version`. */
  function Apply(s: Settings, a: Arg): Settings {
    match a
    case Flag(b) => s.(verbose := Some(b))
    case Num(n) => s.(version := Some(n))
  }

  /** The arguments applied from left to right, written from the right end. */
  function Fold(s: Settings, args: seq<Arg>): Settings
    decreases |args|
  {
    if args == [] then s else Apply(Fold(s, args[..|args| - 1]), args[|args| - 1])
  }

  /** The object the default export may change: the caller's, if it passed one. */
  function Target(arg: TitleOrOptions): set<object> {
    if arg.Given? then {arg.options} else {}
  }

  /**
   * `{ title }` for a string, the caller's own object otherwise, then every
   * extra argument assigned in turn by the `forEach`.
   */
  method Prepare(arg: TitleOrOptions, args: seq<Arg>) returns (o: Options)
    modifies Target(arg)
    ensures arg.Title? ==>
      && fresh(o) && o.title == arg.t
      && Settings(o.verbose, o.version) == Fold(Settings(None, None), args)
    ensures arg.Given? ==>
      && o == arg.options && o.title == old(arg.options.title)
      && Settings(o.verbose, o.version) == Fold(old(Settings(arg.options.verbose, arg.options.version)), args)
  {
    if arg.Title? {
      o := new Options(arg.t);
    } else {
      o := arg.options;
    }
    ghost var start := Settings(o.verbose, o.version);
    var i := 0;
    while i < |args|
      invariant 0 <= i <= |args|
      invariant arg.Title? ==> fresh(o) && o.title == arg.t && start == Settings(None, None)
      invariant arg.Given? ==>
        && o == arg.options && o.title == old(arg.options.title)
        && start == old(Settings(arg.options.verbose, arg.options.version))
      invariant Settings(o.verbose, o.version) == Fold(start, args[..i])
    {
      assert args[..i + 1][..i] == args[..i];
      match args[i] {
        case Flag(b) => o.verbose := Some(b);
        case Num(n) => o.version := Some(n);
      }
      i := i + 1;
    }
    assert args[..i] == args;
  }

  /** The last boolean argument decides `verbose`. */
  lemma {:induction false} FlagWins(s: Settings, args: seq<Arg>, j: nat)
    requires j < |args| && args[j].Flag?
    requires forall k :: j < k < |args| ==> !args[k].Flag?
    ensures Fold(s, args).verbose == Some(args[j].b)
    decreases |args|
  {
    var n := |args| - 1;
    if j < n {
      var front := args[..n];
      assert forall k :: j < k < |front| ==> front[k] == args[k];
      FlagWins(s, front, j);
    }
  }

  /** Without a boolean argument, `verbose` keeps the value it had. */
  lemma {:induction false} NoFlagKeeps(s: Settings, args: seq<Arg>)
    requires forall k :: 0 <= k < |args| ==> !args[k].Flag?
    ensures Fold(s, args).verbose == s.verbose
    decreases |args|
  {
    if args != [] {
      var front := args[..|args| - 1];
      assert forall k :: 0 <= k < |front| ==> front[k] == args[k];
      NoFlagKeeps(s, front);
    }
  }

  /** The last number argument decides `version`. */
  lemma {:induction false} NumWins(s: Settings, args: seq<Arg>, j: nat)
    requires j < |args| && args[j].Num?
    requires forall k :: j < k < |args| ==> !args[k].Num?
    ensures Fold(s, args).version == Some(args[j].n)
    decreases |args|
  {
    var n := |args| - 1;
    if j < n {
      var front := args[..n];
      assert forall k :: j < k < |front| ==> front[k] == args[k];
      NumWins(s, front, j);
    }
  }

  /** Without a number argument, `version` keeps the value it had. */
  lemma {:induction false} NoNumKeeps(s: Settings, args: seq<Arg>)
    requires forall k :: 0 <= k < |args| ==> !args[k].Num?
    ensures Fold(s, args).version == s.version
    decreases |args|
  {
    if args != [] {
      var front := args[..|args| - 1];
      assert forall k :: 0 <= k < |front| ==> front[k] == args[k];
      NoNumKeeps(s, front);
    }
  }

  /** Left to right: the arguments after a split are applied on top of those before it. */
  lemma {:induction false} FoldSplit(s: Settings, a: seq<Arg>, b: seq<Arg>)
    ensures Fold(s, a + b) == Fold(Fold(s, a), b)
    decreases |b|
  {
    if b == [] {
      assert a + b == a;
    } else {
      var n := |b| - 1;
      assert (a + b)[..|a + b| - 1] == a + b[..n];
      assert (a + b)[|a + b| - 1] == b[n];
      FoldSplit(s, a, b[..n]);
    }
  }
}
