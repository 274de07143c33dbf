/**
 * `sanitize_command_for_logging` (internxt_backup.py:159-181): before a
 * command line is logged, the password arguments of a `login` command are
 * masked.
 */
module Sanitize {
  import opened Wrappers
  import opened Text

  const Hidden := "<hidden>"

  predicate IsPasswordArg(arg: string) {
    HasPrefix(arg, "-p=") || HasPrefix(arg, "--password=")
  }

  /** The first '=' of a password argument is the one that ends its flag. */
  lemma FirstEqualsEndsFlag(arg: string, flag: string)
    requires HasPrefix(arg, flag) && |flag| >= 1 && flag[|flag| - 1] == '='
    requires '=' !in flag[..|flag| - 1]
    ensures IndexOf(arg, '=') == Some(|flag| - 1)
  {
    var k := |flag| - 1;
    assert arg[k] == flag[k];
    assert arg[..k] == flag[..k];
  }

  lemma PasswordArgSplit(arg: string)
    requires IsPasswordArg(arg)
    ensures IndexOf(arg, '=') == Some(if HasPrefix(arg, "-p=") then 2 else 10)
  {
    if HasPrefix(arg, "-p=") {
      FirstEqualsEndsFlag(arg, "-p=");
    } else {
      FirstEqualsEndsFlag(arg, "--password=");
    }
  }

  /**
   * One argument as the loop body rewrites it: a password argument keeps
   * the text before its first '=' and loses the secret.
   */
  function MaskArg(arg: string): (r: string)
    ensures HasPrefix(arg, "-p=") ==> r == "-p=" + Hidden
    ensures HasPrefix(arg, "--password=") ==> r == "--password=" + Hidden
    ensures !IsPasswordArg(arg) ==> r == arg
  {
    if IsPasswordArg(arg) then
      PasswordArgSplit(arg);
      match IndexOf(arg, '=')
      case Some(k) => arg[..k] + "=" + Hidden
      case None => assert false; "<hidden>"
    else arg
  }

  /** Whether the command is one whose arguments get masked at all. */
  predicate IsLoginCommand(cmd: seq<string>) {
    |cmd| >= 2 && cmd[1] == "login"
  }

  /**
   * The sanitiser: commands other than `login` (and lists shorter than two)
   * come back as they are; otherwise a copy is returned in which exactly the
   * password arguments are masked. The input is a value, so it cannot be
   * changed by the call.
   */
  method SanitizeCommandForLogging(cmd: seq<string>) returns (r: seq<string>)
    ensures !IsLoginCommand(cmd) ==> r == cmd
    ensures |r| == |cmd|
    ensures IsLoginCommand(cmd) ==> forall i :: 0 <= i < |cmd| ==> r[i] == MaskArg(cmd[i])
    ensures forall i :: 0 <= i < |cmd| && !IsPasswordArg(cmd[i]) ==> r[i] == cmd[i]
    ensures IsLoginCommand(cmd) ==>
      forall i :: 0 <= i < |cmd| && IsPasswordArg(cmd[i]) ==>
        r[i] == "-p=" + Hidden || r[i] == "--password=" + Hidden
  {
    if |cmd| == 0 || |cmd| < 2 {
      return cmd;
    }
    if cmd[1] != "login" {
      return cmd;
    }
    r := MaskPasswords(cmd);
  }

  /** The loop over a copy of a `login` command line, masking each password argument in place. */
  method MaskPasswords(cmd: seq<string>) returns (sanitized: seq<string>)
    ensures |sanitized| == |cmd| && forall i :: 0 <= i < |cmd| ==> sanitized[i] == MaskArg(cmd[i])
  {
    sanitized := cmd;
    for i := 0 to |sanitized|
      invariant |sanitized| == |cmd|
      invariant forall k :: 0 <= k < i ==> sanitized[k] == MaskArg(cmd[k])
      invariant forall k :: i <= k < |cmd| ==> sanitized[k] == cmd[k]
    {
      var arg := sanitized[i];
      if HasPrefix(arg, "-p=") || HasPrefix(arg, "--password=") {
        PasswordArgSplit(arg);
        var eq := IndexOf(arg, '=');
        if eq.Some? {
          sanitized := sanitized[i := arg[..eq.value] + "=" + Hidden];
        } else {
          assert false;
        }
      }
    }
  }
}
