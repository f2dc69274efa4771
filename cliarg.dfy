/** The command line (src/application/cliarg.h / cliarg.cpp): the raw
    arguments, the file arguments, and the option arguments with combined
    short flags split up and unknown options noted. */
module CliArg {
  import opened Wrappers

  // argstr:: the option names the program knows.
  const ForceOpt: string := "-f"
  const HelpOpt: string := "-h"
  const HelpAltOpt: string := "--help"
  const NoColorOpt: string := "--no-color"
  const QuietOpt: string := "-q"
  const VerboseOpt: string := "-v"
  const VersionOpt: string := "--version"

  /** OptionList::checkOpt: the option is one of the known names. */
  predicate CheckOpt(opt: string)
    ensures CheckOpt(opt) ==> |opt| >= 2 && opt[0] == '-' && !Combined(opt)
  {
    opt == ForceOpt || opt == HelpOpt || opt == HelpAltOpt || opt == NoColorOpt ||
    opt == QuietOpt || opt == VerboseOpt || opt == VersionOpt
  }

  /** An option of more than two characters whose second one is not '-'
      holds several short flags after its first character. */
  predicate Combined(opt: string)
  {
    |opt| > 2 && opt[1] != '-'
  }

  /** What OptionList::add stores for one option: "-" and each character
      after the first when it is combined, else the option itself. */
  function Expand(opt: string): seq<string>
  {
    if Combined(opt) then seq(|opt| - 1, i requires 0 <= i < |opt| - 1 => ['-', opt[i + 1]])
    else [opt]
  }

  /** A combined option becomes one two-character flag per character after
      the first, in order, so the characters can be read back; any other
      option is kept whole. */
  lemma {:induction false} ExpandShape(opt: string)
    ensures Combined(opt) ==>
      |Expand(opt)| == |opt| - 1 &&
      (forall i :: 0 <= i < |opt| - 1 ==> |Expand(opt)[i]| == 2 && Expand(opt)[i][0] == '-') &&
      seq(|opt| - 1, i requires 0 <= i < |opt| - 1 => Expand(opt)[i][1]) == opt[1..]
    ensures !Combined(opt) ==> Expand(opt) == [opt]
    ensures |opt| > 0 && opt[0] == '-' ==> forall o :: o in Expand(opt) ==> |o| > 0 && o[0] == '-'
  {
    if Combined(opt) {
      var os := Expand(opt);
      assert forall i :: 0 <= i < |opt| - 1 ==> os[i] == ['-', opt[i + 1]];
    }
  }

  /** The index m_unrecognizedIdx holds: the last option that is not a
      known name, if there is one (OMW_SIZE_MAX stands for none). */
  function LastUnknown(os: seq<string>): (r: Option<nat>)
    ensures r.Some? ==> (r.value < |os| && !CheckOpt(os[r.value]) &&
      forall j :: r.value < j < |os| ==> CheckOpt(os[j]))
    ensures r.None? <==> forall j :: 0 <= j < |os| ==> CheckOpt(os[j])
    decreases |os|
  {
    if |os| == 0 then None
    else if !CheckOpt(os[|os| - 1]) then Some(|os| - 1)
    else
      var front := os[..|os| - 1];
      assert forall j :: 0 <= j < |front| ==> front[j] == os[j];
      LastUnknown(front)
  }

  lemma {:induction false} LastUnknownSnoc(os: seq<string>, opt: string)
    ensures LastUnknown(os + [opt]) == if CheckOpt(opt) then LastUnknown(os) else Some(|os|)
  {
    assert (os + [opt])[..|os|] == os;
  }

  lemma {:induction false} SnocAssoc(a: seq<string>, b: seq<string>, x: string)
    ensures a + b + [x] == a + (b + [x])
  {
  }

  /** OptionList: the stored options, m_unrecognizedIdx and m_isValid. */
  class OptionList {
    var opts: seq<string>
    var unrecognizedIdx: Option<nat>
    var isValid: bool

    /** The two flags follow the stored options: the index is the last
        unknown option, and the list is valid when there is none. */
    ghost predicate Valid()
      reads this
    {
      unrecognizedIdx == LastUnknown(opts) && (isValid <==> unrecognizedIdx.None?)
    }

    constructor ()
      ensures opts == [] && Valid()
    {
      opts := [];
      unrecognizedIdx := None;
      isValid := true;
    }

    /** addOpt: an unknown option clears the flag and records its index. */
    method AddOpt(opt: string)
      requires Valid()
      modifies this
      ensures opts == old(opts) + [opt] && Valid()
    {
      LastUnknownSnoc(opts, opt);
      if !CheckOpt(opt) {
        isValid := false;
        unrecognizedIdx := Some(|opts|);
      }
      opts := opts + [opt];
    }

    /** add: a combined option is split into its flags. */
    method Add(opt: string)
      requires Valid()
      modifies this
      ensures opts == old(opts) + Expand(opt) && Valid()
    {
      if |opt| > 1 {
        if opt[1] != '-' && |opt| > 2 {
          AddFlags(opt);
        } else {
          AddOpt(opt);
        }
      } else {
        AddOpt(opt);
      }
    }

    /** The loop of add over the characters of a combined option. */
    method AddFlags(opt: string)
      requires Valid() && Combined(opt)
      modifies this
      ensures opts == old(opts) + Expand(opt) && Valid()
    {
      ghost var os := Expand(opt);
      ghost var before := opts;
      for i := 1 to |opt|
        invariant opts == before + os[..i - 1] && Valid()
      {
        var flag := ['-', opt[i]];
        assert os[i - 1] == flag;
        assert os[..i] == os[..i - 1] + [flag];
        AddOpt(flag);
        SnocAssoc(before, os[..i - 1], flag);
      }
      assert os[..|opt| - 1] == os;
    }

    /** contains: plain membership. */
    method Contains(arg: string) returns (r: bool)
      ensures r <==> arg in opts
    {
      for i := 0 to |opts|
        invariant arg !in opts[..i]
      {
        if opts[i] == arg {
          return true;
        }
        assert opts[..i + 1] == opts[..i] + [opts[i]];
      }
      assert opts[..|opts|] == opts;
      return false;
    }

    /** unrecognized: the last unknown option, or "" when all are known. */
    method Unrecognized() returns (r: string)
      requires Valid()
      ensures (exists j :: 0 <= j < |opts| && !CheckOpt(opts[j])) ==>
        r == opts[LastUnknown(opts).value] && !CheckOpt(r)
      ensures (forall j :: 0 <= j < |opts| ==> CheckOpt(opts[j])) ==> r == ""
    {
      r := if unrecognizedIdx.Some? then opts[unrecognizedIdx.value] else "";
    }

    /** isValid: no unknown option was added. */
    method IsValid() returns (r: bool)
      requires Valid()
      ensures r <==> forall j :: 0 <= j < |opts| ==> CheckOpt(opts[j])
    {
      r := isValid;
    }
  }

  /** FileList: the file arguments in order. */
  class FileList {
    var files: seq<string>

    constructor ()
      ensures files == []
    {
      files := [];
    }

    method Add(file: string)
      modifies this
      ensures files == old(files) + [file]
    {
      files := files + [file];
    }

    /** getFile: the file at the index, "" past the end. */
    method GetFile(idx: nat) returns (r: string)
      ensures idx < |files| ==> r == files[idx]
      ensures idx >= |files| ==> r == ""
    {
      r := if |files| > idx then files[idx] else "";
    }

    /** isValid: at least an input and an output. */
    method IsValid() returns (r: bool)
      ensures r <==> |files| >= 2
    {
      r := |files| >= 2;
    }
  }

  // ---------------------------------------------------------------------------
  // Args
  // ---------------------------------------------------------------------------

  /** Args::add sends an argument starting with '-' to the options (an
      empty one reads the terminating NUL and goes to the files). */
  predicate IsOptionArg(arg: string)
  {
    |arg| > 0 && arg[0] == '-'
  }

  /** The file list the arguments give, in order. */
  function FilesOf(args: seq<string>): seq<string>
    decreases |args|
  {
    if |args| == 0 then []
    else
      var last := args[|args| - 1];
      FilesOf(args[..|args| - 1]) + (if IsOptionArg(last) then [] else [last])
  }

  /** The option list the arguments give, combined flags split. */
  function OptionsOf(args: seq<string>): seq<string>
    decreases |args|
  {
    if |args| == 0 then []
    else
      var last := args[|args| - 1];
      OptionsOf(args[..|args| - 1]) + (if IsOptionArg(last) then Expand(last) else [])
  }

  /** The arguments parse keeps: all but the program name, without the
      empty ones. */
  function Kept(args: seq<string>): seq<string>
    decreases |args|
  {
    if |args| <= 1 then []
    else
      var last := args[|args| - 1];
      Kept(args[..|args| - 1]) + (if |last| > 0 then [last] else [])
  }

  /** What a file list holds: exactly the arguments that are no options. */
  lemma {:induction false} FilesOfMembers(args: seq<string>)
    ensures forall x :: x in FilesOf(args) <==> x in args && !IsOptionArg(x)
    decreases |args|
  {
    if |args| > 0 {
      var front := args[..|args| - 1];
      FilesOfMembers(front);
      assert args == front + [args[|args| - 1]];
    }
  }

  /** Every flag of an option argument is in the option list, and every
      stored option starts with '-'. */
  lemma {:induction false} OptionsOfMembers(args: seq<string>)
    ensures forall k, o :: 0 <= k < |args| && IsOptionArg(args[k]) && o in Expand(args[k]) ==> o in OptionsOf(args)
    ensures forall o :: o in OptionsOf(args) ==> IsOptionArg(o)
    decreases |args|
  {
    if |args| > 0 {
      var front, last := args[..|args| - 1], args[|args| - 1];
      OptionsOfMembers(front);
      ExpandShape(last);
      assert forall k :: 0 <= k < |front| ==> front[k] == args[k];
    }
  }

  /** Kept's members are exactly the non-empty arguments after the first. */
  lemma {:induction false} KeptMembers(args: seq<string>)
    ensures forall x :: x in Kept(args) <==> |x| > 0 && exists k :: 1 <= k < |args| && args[k] == x
    decreases |args|
  {
    if |args| > 1 {
      var front := args[..|args| - 1];
      KeptMembers(front);
      assert forall k :: 0 <= k < |front| ==> front[k] == args[k];
    }
  }

  /** No argument is lost: there are at least as many stored files and
      options as arguments. */
  lemma {:induction false} NothingLost(args: seq<string>)
    ensures |FilesOf(args)| + |OptionsOf(args)| >= |args|
    decreases |args|
  {
    if |args| > 0 {
      NothingLost(args[..|args| - 1]);
      ExpandShape(args[|args| - 1]);
    }
  }

  class Args {
    var raw: seq<string>
    const files: FileList
    const options: OptionList

    /** The lists are what the raw arguments give. */
    ghost predicate Valid()
      reads this, files, options
    {
      options.Valid() && files.files == FilesOf(raw) && options.opts == OptionsOf(raw)
    }

    constructor ()
      ensures raw == [] && Valid() && fresh(files) && fresh(options)
    {
      raw := [];
      files := new FileList();
      options := new OptionList();
    }

    /** Args(args): parse the argument vector. */
    constructor FromArgs(args: seq<string>)
      ensures raw == Kept(args) && Valid() && fresh(files) && fresh(options)
    {
      raw := [];
      files := new FileList();
      options := new OptionList();
      new;
      Parse(args);
    }

    /** add: route the argument and always keep it in raw. */
    method Add(arg: string)
      requires Valid()
      modifies this, files, options
      ensures raw == old(raw) + [arg] && Valid()
    {
      assert (raw + [arg])[..|raw|] == raw;
      if |arg| > 0 && arg[0] == '-' {
        options.Add(arg);
      } else {
        files.Add(arg);
      }
      raw := raw + [arg];
    }

    /** parse: every argument after the program name that is not empty. */
    method Parse(args: seq<string>)
      requires Valid()
      modifies this, files, options
      ensures raw == old(raw) + Kept(args) && Valid()
    {
      if |args| > 1 {
        var i := 1;
        while i < |args|
          invariant 1 <= i <= |args|
          invariant raw == old(raw) + Kept(args[..i]) && Valid()
        {
          assert args[..i + 1][..i] == args[..i];
          var arg := args[i];
          if |arg| > 0 {
            Add(arg);
          }
          i := i + 1;
        }
        assert args[..i] == args;
      }
    }

    /** inDirs: every file but the last, which is the output. With no file
        at all the unsigned size()-1 wraps and the loop reads past the end,
        so a file is needed. */
    method InDirs() returns (r: seq<string>)
      requires |files.files| > 0
      ensures r == files.files[..|files.files| - 1]
    {
      r := [];
      var n := |files.files| - 1;
      if n > 0 {
        for i := 0 to n
          invariant r == files.files[..i]
        {
          assert files.files[..i + 1] == files.files[..i] + [files.files[i]];
          r := r + [files.files[i]];
        }
      }
    }

    /** outDir: the last file (back() needs one). */
    method OutDir() returns (r: string)
      requires |files.files| > 0
      ensures r == files.files[|files.files| - 1]
    {
      r := files.files[|files.files| - 1];
    }

    /** size and count: the stored files and options together. */
    method Size() returns (r: nat)
      ensures r == |files.files| + |options.opts|
    {
      r := |files.files| + |options.opts|;
    }

    /** isValid: some argument was given. */
    method IsValid() returns (r: bool)
      ensures r <==> |raw| > 0
    {
      r := |raw| != 0;
    }

    /** operator[]: the options come first, then the files. */
    method At(idx: nat) returns (r: string)
      requires idx < |files.files| + |options.opts|
      ensures r == (options.opts + files.files)[idx]
    {
      if idx < |options.opts| {
        r := options.opts[idx];
      } else {
        r := files.files[idx - |options.opts|];
      }
    }

    /** isOption: the raw argument starts with '-'. raw.at and arg.at(0)
        throw past the end, which is None here. */
    method IsOption(rawIdx: nat) returns (r: Option<bool>)
      ensures r.None? <==> rawIdx >= |raw| || |raw[rawIdx]| == 0
      ensures r.Some? ==> (r.value <==> IsOptionArg(raw[rawIdx]))
    {
      if rawIdx >= |raw| || |raw[rawIdx]| == 0 {
        return None;
      }
      r := Some(raw[rawIdx][0] == '-');
    }

    /** contains: looks among the options only. */
    method ContainsOption(option: string) returns (r: bool)
      ensures r <==> option in options.opts
    {
      r := options.Contains(option);
    }

    predicate ContainsForce()
      reads this, options
    {
      ForceOpt in options.opts
    }

    predicate ContainsHelp()
      reads this, options
    {
      HelpOpt in options.opts || HelpAltOpt in options.opts
    }

    predicate ContainsNoColor()
      reads this, options
    {
      NoColorOpt in options.opts
    }

    predicate ContainsQuiet()
      reads this, options
    {
      QuietOpt in options.opts
    }

    predicate ContainsVerbose()
      reads this, options
    {
      VerboseOpt in options.opts
    }

    predicate ContainsVersion()
      reads this, options
    {
      VersionOpt in options.opts
    }

    /** The first argument asks for help. */
    predicate IsGlobalHelp()
      reads this
    {
      |raw| > 0 && (raw[0] == HelpOpt || raw[0] == HelpAltOpt)
    }

    /** Global help is a help request: the first raw argument is stored as
        an option as it is. */
    lemma {:induction false} GlobalHelpIsHelp()
      requires Valid() && IsGlobalHelp()
      ensures ContainsHelp()
    {
      OptionsOfMembers(raw);
      assert !Combined(raw[0]);
      assert raw[0] in Expand(raw[0]);
    }

    /** A flag given on its own or inside a combined option is found by the
        matching query: with "-vf" both -v and -f are contained. */
    lemma {:induction false} FlagFound(k: nat, c: char)
      requires Valid() && k < |raw| && IsOptionArg(raw[k])
      requires (raw[k] == ['-', c]) || (Combined(raw[k]) && c in raw[k][1..])
      ensures ['-', c] in options.opts
      ensures c == 'f' ==> ContainsForce()
      ensures c == 'h' ==> ContainsHelp()
      ensures c == 'q' ==> ContainsQuiet()
      ensures c == 'v' ==> ContainsVerbose()
    {
      OptionsOfMembers(raw);
      ExpandShape(raw[k]);
      if Combined(raw[k]) {
        var os := Expand(raw[k]);
        var j :| 0 <= j < |raw[k][1..]| && raw[k][1..][j] == c;
        assert os[j] == ['-', c];
      } else {
        assert raw[k] in Expand(raw[k]);
      }
    }
  }
}
