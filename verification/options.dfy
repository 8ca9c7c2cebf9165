/** options_default and options_parse: the command line is scanned left to right; each
    recognised flag sets a field of options_t, a flag taking a value consumes the next
    argument, and the first argument that cannot be used ends the scan with an error code.
    The scan is specified by Lex (the directives an argv spells and the code it ends with)
    and ApplyAll (what the directives do to the settings), and the Options class is proved
    to follow them. */
module Options {
  import opened Wrappers

  /** The string-valued fields of options_t, each set by a PARSE_STRING_PARAM line. */
  datatype Key =
    | Username | Groupname | ChrootDir | PidFile
    | LocalAddr | LocalPort | RemoteAddr | RemotePort | ConfigFile

  /** options_t as a value. A string field that is NULL is None. */
  datatype Settings = Settings(
    progname: string,
    daemonize: bool,
    username: Option<string>,
    groupname: Option<string>,
    chrootDir: Option<string>,
    pidFile: Option<string>,
    localAddr: Option<string>,
    localPort: Option<string>,
    remoteAddr: Option<string>,
    remotePort: Option<string>,
    configFile: Option<string>,
    logTargets: seq<string>,
    debug: bool)

  /** The string field k. */
  function Get(s: Settings, k: Key): Option<string>
  {
    match k
    case Username => s.username
    case Groupname => s.groupname
    case ChrootDir => s.chrootDir
    case PidFile => s.pidFile
    case LocalAddr => s.localAddr
    case LocalPort => s.localPort
    case RemoteAddr => s.remoteAddr
    case RemotePort => s.remotePort
    case ConfigFile => s.configFile
  }

  /** s with the string field k set to v and every other field kept. */
  function With(s: Settings, k: Key, v: Option<string>): (r: Settings)
    ensures Get(r, k) == v && forall k' :: k' != k ==> Get(r, k') == Get(s, k')
    ensures r.progname == s.progname && r.daemonize == s.daemonize && r.debug == s.debug
    ensures r.logTargets == s.logTargets
  {
    match k
    case Username => s.(username := v)
    case Groupname => s.(groupname := v)
    case ChrootDir => s.(chrootDir := v)
    case PidFile => s.(pidFile := v)
    case LocalAddr => s.(localAddr := v)
    case LocalPort => s.(localPort := v)
    case RemoteAddr => s.(remoteAddr := v)
    case RemotePort => s.(remotePort := v)
    case ConfigFile => s.(configFile := v)
  }

  const DefaultConfig: string := "/etc/tcpproxy.conf"
  const DebugTarget: string := "stdout:5"
  const SyslogTarget: string := "syslog:3,tcpproxy,daemon"

  /** What options_default leaves in options_t. */
  function Defaults(): Settings
  {
    Settings("tcpproxy", true, None, None, None, None, None, None, None, None,
             Some(DefaultConfig), [], false)
  }

  /** The defaults with the program name options_parse takes from argv[0]. */
  function Named(progname: string): (r: Settings)
    ensures r.progname == progname && forall k :: Get(r, k) == Get(Defaults(), k)
    ensures r.daemonize && !r.debug && r.logTargets == []
  {
    Defaults().(progname := progname)
  }

  // ---------------------------------------------------------------- recognising arguments

  /** What the if/else-if chain of options_parse makes of one argument. */
  datatype Flag =
    | Help | Version | NoDaemonize | StringOption(key: Key) | Log | DebugFlag | Unknown

  /** An argument starting with '-'; options_parse refuses such an argument as a value. */
  predicate DashLed(a: string) {
    |a| > 0 && a[0] == '-'
  }

  /** The branch of options_parse's comparison chain an argument takes, in the order the
      chain tests them. Every flag starts with '-'. */
  function Recognize(a: string): (f: Flag)
    ensures f != Unknown ==> DashLed(a)
  {
    if a == "-h" || a == "--help" then Help
    else if a == "-v" || a == "--version" then Version
    else if a == "-D" || a == "--nodaemonize" then NoDaemonize
    else if a == "-u" || a == "--username" then StringOption(Username)
    else if a == "-g" || a == "--groupname" then StringOption(Groupname)
    else if a == "-C" || a == "--chroot" then StringOption(ChrootDir)
    else if a == "-P" || a == "--write-pid" then StringOption(PidFile)
    else if a == "-L" || a == "--log" then Log
    else if a == "-U" || a == "--debug" then DebugFlag
    else if a == "-l" || a == "--local-addr" then StringOption(LocalAddr)
    else if a == "-p" || a == "--local-port" then StringOption(LocalPort)
    else if a == "-r" || a == "--remote-addr" then StringOption(RemoteAddr)
    else if a == "-o" || a == "--remote-port" then StringOption(RemotePort)
    else if a == "-c" || a == "--config" then StringOption(ConfigFile)
    else Unknown
  }

  /** The flags that consume the following argument. */
  predicate TakesValue(f: Flag) {
    f.StringOption? || f == Log
  }

  /** The flag at position i has a usable value: there is a next argument and it does not
      start with '-'. */
  predicate HasValue(args: seq<string>, i: nat) {
    i + 1 < |args| && !DashLed(args[i + 1])
  }

  // ---------------------------------------------------------------- the scan as a value

  /** The effect of one accepted argument on options_t. */
  datatype Directive = Undaemonize | SetString(key: Key, value: string) | AddLog(target: string) | SetDebug

  function Apply(s: Settings, d: Directive): Settings
  {
    match d
    case Undaemonize => s.(daemonize := false)
    case SetString(k, v) => With(s, k, Some(v))
    case AddLog(t) => s.(logTargets := s.logTargets + [t])
    case SetDebug => s.(debug := true)
  }

  /** The directives applied in order. */
  function ApplyAll(s: Settings, ds: seq<Directive>): Settings
    decreases |ds|
  {
    if ds == [] then s else ApplyAll(Apply(s, ds[0]), ds[1..])
  }

  /** What the argument at position i does: a directive and the position of the next
      argument to look at, or the code options_parse returns there. */
  datatype Token = Accept(d: Directive, next: nat) | Stop(code: int)

  function Next(args: seq<string>, i: nat): (t: Token)
    requires i < |args|
    ensures t.Accept? ==> t.next == i + 1 || (t.next == i + 2 && HasValue(args, i))
  {
    match Recognize(args[i])
    case Help => Stop(-1)
    case Version => Stop(-3)
    case NoDaemonize => Accept(Undaemonize, i + 1)
    case StringOption(k) => if HasValue(args, i) then Accept(SetString(k, args[i + 1]), i + 2) else Stop(i)
    case Log => if HasValue(args, i) then Accept(AddLog(args[i + 1]), i + 2) else Stop(i)
    case DebugFlag => Accept(SetDebug, i + 1)
    case Unknown => Stop(i)
  }

  /** The directives the arguments from position i on spell, and the code the scan ends
      with: 0 at the end of argv, -1 for help, -3 for version, and otherwise the position of
      the argument that was not understood or lacks its value. */
  function Lex(args: seq<string>, i: nat): (r: (seq<Directive>, int))
    ensures r.1 == 0 || r.1 == -1 || r.1 == -3 || i <= r.1 < |args|
    decreases |args| - i
  {
    if i >= |args| then ([], 0)
    else
      match Next(args, i)
      case Stop(code) => ([], code)
      case Accept(d, next) => var rest := Lex(args, next); ([d] + rest.0, rest.1)
  }

  /** The defaults options_parse applies after its loop: debugging logs to stdout and keeps
      the process in the foreground, and an empty target list gets the syslog target. */
  function Finish(s: Settings): (r: Settings)
    ensures r.logTargets != [] && r.progname == s.progname && r.debug == s.debug
    ensures forall k :: Get(r, k) == Get(s, k)
  {
    var s1 := if s.debug then s.(logTargets := s.logTargets + [DebugTarget], daemonize := false) else s;
    if s1.logTargets == [] then s1.(logTargets := [SyslogTarget]) else s1
  }

  /** options_parse as a value: the settings it leaves and the code it returns. argv[0]
      names the program. */
  function ParseArgs(args: seq<string>): (r: (Settings, int))
    requires |args| >= 1
    ensures r.1 == 0 || r.1 == -1 || r.1 == -3 || 1 <= r.1 < |args|
    ensures r.0.progname == args[0]
  {
    var (ds, code) := Lex(args, 1);
    ProgramNameKept(Named(args[0]), ds);
    var s := ApplyAll(Named(args[0]), ds);
    if code == 0 then (Finish(s), 0) else (s, code)
  }

  // ---------------------------------------------------------------- reference views of argv

  /** The arguments that follow each occurrence of flag f at positions i.., in order. */
  function Values(args: seq<string>, i: nat, f: Flag): seq<string>
    decreases |args| - i
  {
    if i >= |args| then []
    else if Recognize(args[i]) == f && i + 1 < |args| then [args[i + 1]] + Values(args, i + 1, f)
    else Values(args, i + 1, f)
  }

  /** The value of flag f at position i, when f is there and has a next argument. */
  function ValueAt(args: seq<string>, i: nat, f: Flag): seq<string>
    requires i < |args|
  {
    if Recognize(args[i]) == f && i + 1 < |args| then [args[i + 1]] else []
  }

  /** Flag f appears at some position i.. . */
  predicate Occurs(args: seq<string>, i: nat, f: Flag) {
    exists j :: i <= j < |args| && Recognize(args[j]) == f
  }

  function Last(vs: seq<string>): string
    requires vs != []
  {
    vs[|vs| - 1]
  }

  // ---------------------------------------------------------------- properties of the scan

  lemma {:induction false} ProgramNameKept(s: Settings, ds: seq<Directive>)
    ensures ApplyAll(s, ds).progname == s.progname
    decreases |ds|
  {
    if ds != [] {
      ProgramNameKept(Apply(s, ds[0]), ds[1..]);
    }
  }

  /** Applying one more directive at the end: what the loop of options_parse does. */
  lemma {:induction false} ApplyAllSnoc(s: Settings, ds: seq<Directive>, d: Directive)
    ensures ApplyAll(s, ds + [d]) == Apply(ApplyAll(s, ds), d)
    decreases |ds|
  {
    if ds != [] {
      ApplyAllSnoc(Apply(s, ds[0]), ds[1..], d);
      assert (ds + [d])[1..] == ds[1..] + [d];
    }
  }

  /** An argument consumed as a value is never itself a flag, so skipping it does not change
      the values of a flag from there on... */
  lemma SkipValues(args: seq<string>, i: nat, f: Flag)
    requires HasValue(args, i) && f != Unknown
    ensures Values(args, i + 1, f) == Values(args, i + 2, f)
  {
    assert Recognize(args[i + 1]) != f;
  }

  /** ... nor whether it occurs from there on. */
  lemma SkipOccurs(args: seq<string>, i: nat, f: Flag)
    requires HasValue(args, i) && f != Unknown
    ensures Occurs(args, i + 1, f) <==> Occurs(args, i + 2, f)
  {
    OccursStep(args, i + 1, f);
    assert Recognize(args[i + 1]) != f;
  }

  /** Occurrences from i are those at i and those from i + 1. */
  lemma OccursStep(args: seq<string>, i: nat, f: Flag)
    requires i < |args|
    ensures Occurs(args, i, f) <==> Recognize(args[i]) == f || Occurs(args, i + 1, f)
  {
    if Occurs(args, i, f) && Recognize(args[i]) != f {
      var j :| i <= j < |args| && Recognize(args[j]) == f;
      assert i + 1 <= j;
    }
  }

  /** Past an accepted argument at i, flag f occurs from i exactly when it is the argument at
      i or occurs from where the scan goes on. */
  lemma AdvanceOccurs(args: seq<string>, i: nat, f: Flag, next: nat)
    requires i < |args| && Next(args, i).Accept? && Next(args, i).next == next && f != Unknown
    ensures Occurs(args, i, f) <==> Recognize(args[i]) == f || Occurs(args, next, f)
  {
    OccursStep(args, i, f);
    if next == i + 2 {
      SkipOccurs(args, i, f);
    }
  }

  /** Past an accepted argument at i, the values of flag f from i are its value at i (when
      the argument is f) followed by its values from where the scan goes on. */
  lemma AdvanceValues(args: seq<string>, i: nat, f: Flag, next: nat)
    requires i < |args| && Next(args, i).Accept? && Next(args, i).next == next && f != Unknown
    ensures Values(args, i, f) == ValueAt(args, i, f) + Values(args, next, f)
  {
    var later := Values(args, i + 1, f);
    if Recognize(args[i]) == f && i + 1 < |args| {
      assert Values(args, i, f) == [args[i + 1]] + later;
    } else {
      assert Values(args, i, f) == later == [] + later;
    }
    if next == i + 2 {
      SkipValues(args, i, f);
    }
  }

  /** One step of a successful scan from i: the argument at i is accepted, the scan from
      where it goes on succeeds too, and the settings are those the rest of the scan leaves
      from the settings after that argument. */
  lemma Step(args: seq<string>, i: nat, s: Settings)
    requires 1 <= i < |args| && Lex(args, i).1 == 0
    ensures Next(args, i).Accept? && Lex(args, Next(args, i).next).1 == 0
    ensures ApplyAll(s, Lex(args, i).0) == ApplyAll(Apply(s, Next(args, i).d), Lex(args, Next(args, i).next).0)
  {
    var t := Next(args, i);
    assert t.Accept? && Lex(args, i) == ([t.d] + Lex(args, t.next).0, Lex(args, t.next).1);
    ApplyCons(s, t.d, Lex(args, t.next).0);
  }

  lemma ApplyCons(s: Settings, d: Directive, ds: seq<Directive>)
    ensures ApplyAll(s, [d] + ds) == ApplyAll(Apply(s, d), ds)
  {
    assert ([d] + ds)[1..] == ds;
  }

  /** Last occurrence wins: after a successful scan from i, string field k holds the value
      of the last -k flag, or what it held before when there is none. */
  lemma {:induction false} LastWins(args: seq<string>, i: nat, s: Settings, k: Key)
    requires 1 <= i && Lex(args, i).1 == 0
    ensures var vs := Values(args, i, StringOption(k));
      Get(ApplyAll(s, Lex(args, i).0), k) == if vs == [] then Get(s, k) else Some(Last(vs))
    decreases |args| - i
  {
    if i < |args| {
      var t := Next(args, i);
      Step(args, i, s);
      LastWins(args, t.next, Apply(s, t.d), k);
      AdvanceValues(args, i, StringOption(k), t.next);
      KeySet(args, i, s, k, t.d, t.next);
      LastOfAppend(ValueAt(args, i, StringOption(k)), Values(args, t.next, StringOption(k)));
    }
  }

  /** An accepted argument sets string field k exactly when it is -k, and then to its value. */
  lemma KeySet(args: seq<string>, i: nat, s: Settings, k: Key, d: Directive, next: nat)
    requires i < |args| && Next(args, i) == Accept(d, next)
    ensures var v := ValueAt(args, i, StringOption(k));
      Get(Apply(s, d), k) == if v == [] then Get(s, k) else Some(Last(v))
  {
  }

  lemma LastOfAppend(a: seq<string>, b: seq<string>)
    ensures a + b != [] ==> Last(a + b) == if b == [] then Last(a) else Last(b)
  {
  }

  /** -L appends: after a successful scan from i, the log targets are the earlier ones
      followed by the value of every -L flag, in order. */
  lemma {:induction false} LogsInOrder(args: seq<string>, i: nat, s: Settings)
    requires 1 <= i && Lex(args, i).1 == 0
    ensures ApplyAll(s, Lex(args, i).0).logTargets == s.logTargets + Values(args, i, Log)
    decreases |args| - i
  {
    if i < |args| {
      Step(args, i, s);
      LogsInOrder(args, Next(args, i).next, Apply(s, Next(args, i).d));
      LogStep(args, i, s, Next(args, i).d, Next(args, i).next);
    }
  }

  /** An accepted argument adds its value to the log targets exactly when it is -L, and the
      values of -L from i are that one followed by those from where the scan goes on. */
  lemma LogStep(args: seq<string>, i: nat, s: Settings, d: Directive, next: nat)
    requires i < |args| && Next(args, i) == Accept(d, next)
    ensures Apply(s, d).logTargets + Values(args, next, Log) == s.logTargets + Values(args, i, Log)
  {
    var added := ValueAt(args, i, Log);
    var later := Values(args, next, Log);
    AdvanceValues(args, i, Log, next);
    LogAdded(args, i, s, d, next);
    AppendAssoc(s.logTargets, added, later);
  }

  lemma AppendAssoc(a: seq<string>, b: seq<string>, c: seq<string>)
    ensures (a + b) + c == a + (b + c)
  {
  }

  /** An accepted argument adds its value to the log targets exactly when it is -L. */
  lemma LogAdded(args: seq<string>, i: nat, s: Settings, d: Directive, next: nat)
    requires i < |args| && Next(args, i) == Accept(d, next)
    ensures Apply(s, d).logTargets == s.logTargets + ValueAt(args, i, Log)
  {
  }

  /** After a successful scan from i, debugging is on exactly when it was or -U occurs, and
      the process stays a daemon exactly when it was one and -D does not occur. */
  lemma {:induction false} SwitchesSet(args: seq<string>, i: nat, s: Settings)
    requires 1 <= i && Lex(args, i).1 == 0
    ensures ApplyAll(s, Lex(args, i).0).debug == (s.debug || Occurs(args, i, DebugFlag))
    ensures ApplyAll(s, Lex(args, i).0).daemonize == (s.daemonize && !Occurs(args, i, NoDaemonize))
    decreases |args| - i
  {
    if i < |args| {
      Step(args, i, s);
      SwitchesSet(args, Next(args, i).next, Apply(s, Next(args, i).d));
      AdvanceOccurs(args, i, DebugFlag, Next(args, i).next);
      AdvanceOccurs(args, i, NoDaemonize, Next(args, i).next);
    }
  }

  /** -h/--help, -v/--version and an unknown argument starting with '-' stop the scan: when
      one appears at position j, the scan from 1 <= i <= j fails with -1, -3, or the position
      of a bad argument no later than j. No value can swallow such an argument. */
  lemma {:induction false} StopFlagFails(args: seq<string>, i: nat, j: nat)
    requires 1 <= i <= j < |args|
    requires Recognize(args[j]) == Help || Recognize(args[j]) == Version || (Recognize(args[j]) == Unknown && DashLed(args[j]))
    ensures Lex(args, i).1 != 0 && Lex(args, i).1 <= j
    decreases |args| - i
  {
    var t := Next(args, i);
    if t.Accept? {
      assert t.next <= j by {
        if t.next == i + 2 {
          assert !DashLed(args[i + 1]) && DashLed(args[j]);
        }
      }
      StopFlagFails(args, t.next, j);
    }
  }

  /** The scan fails with a position only at an argument that is no flag, or at a flag whose
      value is missing or starts with '-'; -1 and -3 come only from -h/--help and
      -v/--version. */
  lemma {:induction false} ErrorCause(args: seq<string>, i: nat)
    requires 1 <= i
    ensures var code := Lex(args, i).1;
      && (code > 0 ==>
            Recognize(args[code]) == Unknown || (TakesValue(Recognize(args[code])) && !HasValue(args, code)))
      && (code == -1 ==> Occurs(args, i, Help))
      && (code == -3 ==> Occurs(args, i, Version))
    decreases |args| - i
  {
    if i < |args| {
      var t := Next(args, i);
      if t.Accept? {
        ErrorCause(args, t.next);
        AdvanceOccurs(args, i, Help, t.next);
        AdvanceOccurs(args, i, Version, t.next);
      }
    }
  }

  /** A successful options_parse is the scan from position 1 applied to the defaults named
      after argv[0], followed by the post-scan defaults. */
  lemma Succeeded(args: seq<string>)
    requires |args| >= 1 && ParseArgs(args).1 == 0
    ensures Lex(args, 1).1 == 0
    ensures ParseArgs(args).0 == Finish(ApplyAll(Named(args[0]), Lex(args, 1).0))
  {
  }

  /** After a successful options_parse each string option holds the value of its last
      occurrence, or its default when it does not occur. */
  lemma ParseKeys(args: seq<string>, k: Key)
    requires |args| >= 1 && ParseArgs(args).1 == 0
    ensures var vs := Values(args, 1, StringOption(k));
      Get(ParseArgs(args).0, k) == if vs == [] then Get(Defaults(), k) else Some(Last(vs))
  {
    Succeeded(args);
    LastWins(args, 1, Named(args[0]), k);
  }

  /** After a successful options_parse debugging is on exactly when -U occurs, and the
      process becomes a daemon exactly when neither -D nor -U occurs. */
  lemma ParseSwitches(args: seq<string>)
    requires |args| >= 1 && ParseArgs(args).1 == 0
    ensures ParseArgs(args).0.debug == Occurs(args, 1, DebugFlag)
    ensures ParseArgs(args).0.daemonize == (!Occurs(args, 1, NoDaemonize) && !Occurs(args, 1, DebugFlag))
  {
    Succeeded(args);
    SwitchesSet(args, 1, Named(args[0]));
  }

  /** After a successful options_parse the log targets are every -L value in order, then
      stdout:5 when debugging; the syslog target when that leaves none. */
  lemma ParseLogs(args: seq<string>)
    requires |args| >= 1 && ParseArgs(args).1 == 0
    ensures var s := ParseArgs(args).0;
      var logs := Values(args, 1, Log) + (if s.debug then [DebugTarget] else []);
      s.logTargets == if logs == [] then [SyslogTarget] else logs
  {
    Succeeded(args);
    var s0 := Named(args[0]);
    var s := ApplyAll(s0, Lex(args, 1).0);
    LogsInOrder(args, 1, s0);
    assert s.logTargets == Values(args, 1, Log) by {
      assert s0.logTargets == [];
    }
    FinishLogs(s);
  }

  /** The post-scan defaults append stdout:5 when debugging, and then give an empty list
      the syslog target. */
  lemma FinishLogs(s: Settings)
    ensures var logs := s.logTargets + (if s.debug then [DebugTarget] else []);
      Finish(s).logTargets == if logs == [] then [SyslogTarget] else logs
  {
    if !s.debug {
      assert s.logTargets + [] == s.logTargets;
    }
  }

  /** Where options_parse's loop stands: it has reached position at of argv, and done are
      the directives the arguments before it spelled. */
  ghost predicate Scanned(argv: seq<string>, at: nat, done: seq<Directive>) {
    1 <= at <= |argv| && Lex(argv, 1) == (done + Lex(argv, at).0, Lex(argv, at).1)
  }

  /** An accepted argument moves the loop on, with its directive done. */
  lemma Continue(argv: seq<string>, at: nat, done: seq<Directive>, d: Directive, next: nat)
    requires Scanned(argv, at, done) && at < |argv| && Next(argv, at) == Accept(d, next)
    ensures Scanned(argv, next, done + [d])
  {
    assert Lex(argv, at) == ([d] + Lex(argv, next).0, Lex(argv, next).1);
    assert (done + [d]) + Lex(argv, next).0 == done + ([d] + Lex(argv, next).0);
  }

  /** An argument that stops the loop makes options_parse return its code with the settings
      the arguments before it left. */
  lemma Stopped(argv: seq<string>, at: nat, done: seq<Directive>, code: int)
    requires Scanned(argv, at, done) && at < |argv| && Next(argv, at) == Stop(code)
    ensures ParseArgs(argv) == (ApplyAll(Named(argv[0]), done), code)
  {
    assert Lex(argv, at) == ([], code);
    assert done + [] == done;
  }

  /** A loop that reaches the end of argv makes options_parse return 0 with the post-scan
      defaults applied. */
  lemma Finished(argv: seq<string>, done: seq<Directive>)
    requires Scanned(argv, |argv|, done)
    ensures ParseArgs(argv) == (Finish(ApplyAll(Named(argv[0]), done)), 0)
  {
    assert done + [] == done;
  }

  // ---------------------------------------------------------------- options_t in place

  /** options_t: the fields options_default and options_parse assign. */
  class Options {
    var progname: string
    var daemonize: bool
    var username: Option<string>
    var groupname: Option<string>
    var chrootDir: Option<string>
    var pidFile: Option<string>
    var localAddr: Option<string>
    var localPort: Option<string>
    var remoteAddr: Option<string>
    var remotePort: Option<string>
    var configFile: Option<string>
    var logTargets: seq<string>
    var debug: bool

    /** The fields as a value. */
    function Snapshot(): Settings
      reads this
    {
      Settings(progname, daemonize, username, groupname, chrootDir, pidFile, localAddr,
               localPort, remoteAddr, remotePort, configFile, logTargets, debug)
    }

    constructor ()
      ensures Snapshot() == Defaults()
    {
      new;
      Default();
    }

    /** options_default. */
    method Default()
      modifies this
      ensures Snapshot() == Defaults()
    {
      progname := "tcpproxy";
      daemonize := true;
      username := None;
      groupname := None;
      chrootDir := None;
      pidFile := None;
      localAddr := None;
      localPort := None;
      remoteAddr := None;
      remotePort := None;
      configFile := Some(DefaultConfig);
      logTargets := [];
      debug := false;
    }

    /** The assignment of a PARSE_STRING_PARAM line: field k takes the value v. */
    method Assign(k: Key, v: string)
      modifies this
      ensures Snapshot() == With(old(Snapshot()), k, Some(v))
    {
      match k {
        case Username => username := Some(v);
        case Groupname => groupname := Some(v);
        case ChrootDir => chrootDir := Some(v);
        case PidFile => pidFile := Some(v);
        case LocalAddr => localAddr := Some(v);
        case LocalPort => localPort := Some(v);
        case RemoteAddr => remoteAddr := Some(v);
        case RemotePort => remotePort := Some(v);
        case ConfigFile => configFile := Some(v);
      }
    }

    /** options_parse: the defaults, then argv[0] as the program name, then the scan of the
        remaining arguments, then the post-scan defaults when the scan reached the end. */
    method Parse(argv: seq<string>) returns (ret: int)
      requires |argv| >= 1
      modifies this
      ensures (Snapshot(), ret) == ParseArgs(argv)
    {
      Default();
      progname := argv[0];
      ghost var start := Snapshot();
      var argc := |argv| - 1;
      var i := 1;
      ghost var done: seq<Directive> := [];
      assert done + Lex(argv, i).0 == Lex(argv, i).0;
      while argc > 0
        invariant Scanned(argv, i, done) && argc == |argv| - i
        invariant start == Named(argv[0]) && Snapshot() == ApplyAll(start, done)
        decreases argc
      {
        ghost var at := i;
        var str := argv[i];
        argc := argc - 1;
        ghost var d: Directive;
        match Recognize(str) {
          case Help =>
            Stopped(argv, at, done, -1);
            return -1;
          case Version =>
            Stopped(argv, at, done, -3);
            return -3;
          case NoDaemonize =>
            daemonize := false;
            d := Undaemonize;
          case StringOption(k) =>
            if argc < 1 || DashLed(argv[i + 1]) {
              Stopped(argv, at, done, i);
              return i;
            }
            Assign(k, argv[i + 1]);
            d := SetString(k, argv[i + 1]);
            argc := argc - 1;
            i := i + 1;
          case Log =>
            if argc < 1 || DashLed(argv[i + 1]) {
              Stopped(argv, at, done, i);
              return i;
            }
            logTargets := logTargets + [argv[i + 1]];
            d := AddLog(argv[i + 1]);
            argc := argc - 1;
            i := i + 1;
          case DebugFlag =>
            debug := true;
            d := SetDebug;
          case Unknown =>
            Stopped(argv, at, done, i);
            return i;
        }
        i := i + 1;
        ApplyAllSnoc(start, done, d);
        Continue(argv, at, done, d, i);
        done := done + [d];
      }
      Finished(argv, done);
      ghost var scanned := Snapshot();
      if debug {
        logTargets := logTargets + [DebugTarget];
        daemonize := false;
      }
      if logTargets == [] {
        logTargets := logTargets + [SyslogTarget];
        assert logTargets == [SyslogTarget];
      }
      assert Snapshot() == Finish(scanned);
      ret := 0;
    }
  }
}
