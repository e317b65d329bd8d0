/** The command-line switch of the example driver: a run is a development
    run when `--dev` or `-d` is among its arguments. */
module Cli {

  const DEV_FLAG := "--dev"
  const DEV_SHORT_FLAG := "-d"

  /** `is_dev` over every argument, the program name included. */
  function IsDev(args: seq<string>): (r: bool)
    ensures r <==> exists i :: 0 <= i < |args| && (args[i] == DEV_FLAG || args[i] == DEV_SHORT_FLAG)
  {
    DEV_FLAG in args || DEV_SHORT_FLAG in args
  }

  /** Where the flags sit makes no difference: any reordering of the
      arguments gives the same answer. */
  lemma IsDevIgnoresOrder(a: seq<string>, b: seq<string>)
    requires multiset(a) == multiset(b)
    ensures IsDev(a) == IsDev(b)
  {
    assert DEV_FLAG in a <==> DEV_FLAG in multiset(a);
    assert DEV_FLAG in b <==> DEV_FLAG in multiset(b);
    assert DEV_SHORT_FLAG in a <==> DEV_SHORT_FLAG in multiset(a);
    assert DEV_SHORT_FLAG in b <==> DEV_SHORT_FLAG in multiset(b);
  }

  /** Arguments split anywhere: the run is a development run when either part says so. */
  lemma IsDevAppend(a: seq<string>, b: seq<string>)
    ensures IsDev(a + b) == (IsDev(a) || IsDev(b))
  {
    if IsDev(a + b) {
      var i :| 0 <= i < |a + b| && ((a + b)[i] == DEV_FLAG || (a + b)[i] == DEV_SHORT_FLAG);
      if i < |a| {
        assert a[i] == (a + b)[i];
      } else {
        assert b[i - |a|] == (a + b)[i];
      }
    }
  }

  /** Only an argument equal to one of the two flags counts: one that merely
      starts with a flag (`--develop`, `-dx`) does not, and adding such
      arguments changes nothing. */
  lemma IsDevExactMatch(args: seq<string>, extra: seq<string>)
    requires forall i :: 0 <= i < |extra| ==> extra[i] != DEV_FLAG && extra[i] != DEV_SHORT_FLAG
    ensures IsDev(args + extra) == IsDev(args)
    ensures !IsDev(["--develop", "-dx"])
  {
    IsDevAppend(args, extra);
    assert !IsDev(extra);
    assert "--develop" != DEV_FLAG && "-dx" != DEV_SHORT_FLAG && "-dx" != DEV_FLAG && "--develop" != DEV_SHORT_FLAG;
  }

  /** The program name is an argument like any other: a program called
      `-d` always runs in development mode. */
  lemma IsDevProgramName(rest: seq<string>)
    ensures IsDev([DEV_SHORT_FLAG] + rest)
    ensures IsDev([DEV_FLAG] + rest)
  {
    assert ([DEV_SHORT_FLAG] + rest)[0] == DEV_SHORT_FLAG;
    assert ([DEV_FLAG] + rest)[0] == DEV_FLAG;
  }
}
