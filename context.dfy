/** The shell context sent with every request (src/context.rs): the
    operating system, the shell name and the working directory, and the
    text block they are rendered into. */
module Context {
  import opened Wrappers
  import opened Text

  datatype ShellContext = ShellContext(os: string, shell: string, cwd: string)

  /** The fixed text around the three values of the context block. */
  const OS_OPEN: string := "<context>\n  <os>"
  const SHELL_OPEN: string := "</os>\n  <shell>"
  const CWD_OPEN: string := "</shell>\n  <cwd>"
  const CONTEXT_CLOSE: string := "</cwd>\n</context>"

  /** `ShellContext::as_prompt_context`. */
  function AsPromptContext(ctx: ShellContext): string {
    OS_OPEN + ctx.os + (SHELL_OPEN + ctx.shell + (CWD_OPEN + ctx.cwd + CONTEXT_CLOSE))
  }

  /** The block carries all three values (that it can be read back is
      `PromptContextInjective`). */
  lemma ContextCarriesFields(ctx: ShellContext)
    ensures var block := AsPromptContext(ctx);
      Contains(block, ctx.os) && Contains(block, ctx.shell) && Contains(block, ctx.cwd)
  {
    FieldsContained(OS_OPEN, ctx.os, SHELL_OPEN, ctx.shell, CWD_OPEN, ctx.cwd, CONTEXT_CLOSE);
  }

  /** A text of three fields between fixed separators contains each field. */
  lemma FieldsContained(t1: string, x: string, t2: string, y: string, t3: string, z: string, t4: string)
    ensures var s := t1 + x + (t2 + y + (t3 + z + t4));
      Contains(s, x) && Contains(s, y) && Contains(s, z)
  {
    var s := t1 + x + (t2 + y + (t3 + z + t4));
    ContainsInfix(t1, x, t2 + y + (t3 + z + t4));
    assert s == (t1 + x + t2) + y + (t3 + z + t4);
    ContainsInfix(t1 + x + t2, y, t3 + z + t4);
    assert s == (t1 + x + t2 + y + t3) + z + t4;
    ContainsInfix(t1 + x + t2 + y + t3, z, t4);
  }

  /** Where the characters of a field and of what follows it sit. */
  lemma FieldPositions(p: string, x: string, r: string)
    requires r != []
    ensures forall k :: 0 <= k < |x| ==> (p + x + r)[|p| + k] == x[k]
    ensures (p + x + r)[|p| + |x|] == r[0]
  {
  }

  /** When a string is a fixed prefix, a '<'-free field and a rest that
      starts with '<', the field and the rest are determined. */
  lemma FieldBeforeTag(p: string, x1: string, r1: string, x2: string, r2: string)
    requires p + x1 + r1 == p + x2 + r2
    requires '<' !in x1 && '<' !in x2
    requires r1 != [] && r1[0] == '<' && r2 != [] && r2[0] == '<'
    ensures x1 == x2 && r1 == r2
  {
    var s := p + x1 + r1;
    var t := p + x2 + r2;
    FieldPositions(p, x1, r1);
    FieldPositions(p, x2, r2);
    if |x1| < |x2| {
      assert false;
    } else if |x2| < |x1| {
      assert false;
    }
    assert x1 == s[|p|..|p| + |x1|];
    assert x2 == t[|p|..|p| + |x2|];
    assert r1 == s[|p| + |x1|..];
    assert r2 == t[|p| + |x2|..];
  }

  /** The context block can be read back: as long as the OS and shell names
      hold no '<', equal blocks come from equal contexts. */
  lemma {:induction false} PromptContextInjective(a: ShellContext, b: ShellContext)
    requires '<' !in a.os && '<' !in a.shell && '<' !in b.os && '<' !in b.shell
    requires AsPromptContext(a) == AsPromptContext(b)
    ensures a == b
  {
    var cwdA := CWD_OPEN + a.cwd + CONTEXT_CLOSE;
    var cwdB := CWD_OPEN + b.cwd + CONTEXT_CLOSE;
    var restA := SHELL_OPEN + a.shell + cwdA;
    var restB := SHELL_OPEN + b.shell + cwdB;
    assert restA[0] == '<' && restB[0] == '<';
    FieldBeforeTag(OS_OPEN, a.os, restA, b.os, restB);
    assert cwdA[0] == '<' && cwdB[0] == '<';
    FieldBeforeTag(SHELL_OPEN, a.shell, cwdA, b.shell, cwdB);
    assert |a.cwd| == |b.cwd|;
    assert a.cwd == cwdA[|CWD_OPEN|..|CWD_OPEN| + |a.cwd|];
    assert b.cwd == cwdB[|CWD_OPEN|..|CWD_OPEN| + |b.cwd|];
  }

  /** The compile-time target, which `cfg!(target_os = ...)` tests. */
  datatype TargetOs = MacOS | LinuxOs | WindowsOs | OtherOs

  /** `detect_os`. */
  function DetectOs(target: TargetOs): (name: string)
    ensures name in {"macOS", "Linux", "Windows", "Unknown"}
    ensures (target == MacOS <==> name == "macOS") && (target == LinuxOs <==> name == "Linux")
    ensures (target == WindowsOs <==> name == "Windows") && (target == OtherOs <==> name == "Unknown")
  {
    match target
    case MacOS => "macOS"
    case LinuxOs => "Linux"
    case WindowsOs => "Windows"
    case OtherOs => "Unknown"
  }

  /** Different targets get different names, so the name identifies the
      target; none of them can disturb the context block. */
  lemma DetectOsInjective(t1: TargetOs, t2: TargetOs)
    ensures DetectOs(t1) == DetectOs(t2) <==> t1 == t2
    ensures '<' !in DetectOs(t1)
  {
  }

  /** The environment `detect_shell` consults. `ppidOutput` is the standard
      output of `ps -p <own pid> -o ppid=` (None when it cannot be run);
      `commandOutput(pid)` is that of `ps -p <pid> -o comm=`. */
  datatype ShellEnvironment = ShellEnvironment(
    shellVar: Option<string>,
    target: TargetOs,
    psModulePathSet: bool,
    ppidOutput: Option<string>,
    commandOutput: nat -> Option<string>)

  /** The parent process's command name as the two `ps` calls report it,
      trimmed; None when a call fails or the pid does not parse as `u32`. */
  function ParentCommand(env: ShellEnvironment): (comm: Option<string>)
    ensures comm.Some? <==>
      && env.ppidOutput.Some?
      && ParseU32(Trim(env.ppidOutput.value)).Some?
      && env.commandOutput(ParseU32(Trim(env.ppidOutput.value)).value).Some?
    ensures comm.Some? ==> comm.value == [] || (!IsWhitespace(comm.value[0]) && !IsWhitespace(comm.value[|comm.value| - 1]))
    ensures comm.Some? ==> ParseU32(Trim(env.ppidOutput.value)).value < U32_LIMIT
    ensures comm.Some? ==> comm.value == Trim(env.commandOutput(ParseU32(Trim(env.ppidOutput.value)).value).value)
  {
    match env.ppidOutput
    case None => None
    case Some(out) =>
      match ParseU32(Trim(out))
      case None => None
      case Some(ppid) =>
        match env.commandOutput(ppid)
        case None => None
        case Some(comm) => Some(Trim(comm))
  }

  /** `detect_shell`. */
  function DetectShell(env: ShellEnvironment): (shell: string)
    ensures '/' !in shell
  {
    match env.shellVar
    case Some(path) => LastSegment(path, '/')
    case None =>
      if env.target == WindowsOs then
        if env.psModulePathSet then "powershell" else "cmd"
      else
        match ParentCommand(env)
        case Some(comm) => if comm != [] then LastSegment(comm, '/') else "unknown"
        case None => "unknown"
  }

  /** With SHELL set, the result is the text after its last '/', whatever
      the platform or the process table says. */
  lemma ShellVariableWins(env: ShellEnvironment, other: ShellEnvironment)
    requires env.shellVar.Some?
    requires other.shellVar == env.shellVar
    ensures DetectShell(env) == DetectShell(other)
    ensures var path := env.shellVar.value; var name := DetectShell(env);
      && path == path[..|path| - |name|] + name
      && (|name| == |path| || path[|path| - |name| - 1] == '/')
  {
  }

  /** On Windows, without SHELL: PowerShell when PSModulePath is set, cmd otherwise. */
  lemma WindowsFallback(env: ShellEnvironment)
    requires env.shellVar.None? && env.target == WindowsOs
    ensures DetectShell(env) == (if env.psModulePathSet then "powershell" else "cmd")
  {
  }

  /** Elsewhere, without SHELL: the last path segment of the parent's
      command name when there is a non-empty one, "unknown" otherwise. */
  lemma ProcessFallback(env: ShellEnvironment)
    requires env.shellVar.None? && env.target != WindowsOs
    ensures (ParentCommand(env).Some? && ParentCommand(env).value != [])
            ==> DetectShell(env) == LastSegment(ParentCommand(env).value, '/')
    ensures (ParentCommand(env).None? || ParentCommand(env).value == [])
            ==> DetectShell(env) == "unknown"
  {
  }

  /** `ShellContext::detect`; an unreadable working directory is "unknown". */
  function Detect(env: ShellEnvironment, cwd: Option<string>): (ctx: ShellContext)
    ensures ctx.os == DetectOs(env.target) && ctx.shell == DetectShell(env)
    ensures cwd.Some? ==> ctx.cwd == cwd.value
    ensures cwd.None? ==> ctx.cwd == "unknown"
  {
    ShellContext(DetectOs(env.target), DetectShell(env), cwd.GetOr("unknown"))
  }
}
