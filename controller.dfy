/** The controller's main loop: read a command, update the buffer, and on an
    accept command verify the buffered user id and PIN and open the door
    when access is granted. Reads from the keypad are an input sequence;
    the door and the log become actions. */
module Controller {
  import opened Common
  import opened Keypad
  import opened Access

  /** What an accept command leads to: the door is opened (`Granted`) or
      access is refused (`Denied`), for the user id and PIN tried. */
  datatype Action = Granted(uid: string, pin: string) | Denied(uid: string, pin: string)

  /** The loop's state: the buffer, the actions taken so far, and whether an
      exception has ended the loop. */
  datatype Machine = Machine(buf: string, actions: seq<Action>, halted: bool)

  const Start: Machine := Machine([], [], false)

  /** One pass of the loop body over `cmd`. An accept command leaves the
      buffer as it is and verifies its first four characters (fewer if it is
      shorter) as the user id and the rest as the PIN: the loop ends, with
      no action, if an exception escapes, and otherwise one action records
      the outcome. */
  function Next(env: Env, m: Machine, cmd: Command): (r: Machine)
    ensures m.halted ==> r == m
    ensures !m.halted && !IsAcceptCmd(cmd) ==> r == m.(buf := Step(m.buf, cmd))
    ensures !m.halted && IsAcceptCmd(cmd) ==>
      var k := Min(4, |m.buf|);
      var (uid, pin) := (m.buf[..k], m.buf[k..]);
      && r.buf == m.buf
      && (r.halted <==> TestAccess(env, uid, pin).Raised?)
      && r.actions == m.actions +
           (if r.halted then []
            else [if TestAccess(env, uid, pin) == Ok(true) then Granted(uid, pin) else Denied(uid, pin)])
  {
    if m.halted then m
    else if !IsAcceptCmd(cmd) then m.(buf := Step(m.buf, cmd))
    else
      // The PIN is the buffer from its fifth character on (`numbif` and
      // `pin` at the call are slips for `numbuf` and `pw`).
      var (uid, pin) := SplitAt(m.buf, UidLength);
      match TestAccess(env, uid, pin)
      case Raised(_) => m.(halted := true)
      case Ok(granted) =>
        m.(actions := m.actions + [if granted then Granted(uid, pin) else Denied(uid, pin)])
  }

  /** The state after the loop has read `cmds`, in order. While no
      exception has ended the loop, the buffer is what the keypad state
      machine makes of the input, and every accept command has led to
      exactly one action; there are never more actions than accepts. */
  function Exec(env: Env, cmds: seq<Command>): (r: Machine)
    decreases |cmds|
    ensures !r.halted ==> r.buf == Feed([], cmds)
    ensures !r.halted ==> |r.actions| == Accepts(cmds)
    ensures |r.actions| <= Accepts(cmds)
  {
    if cmds == [] then Start
    else Next(env, Exec(env, cmds[..|cmds| - 1]), cmds[|cmds| - 1])
  }

  /** An action agrees with the verification it reports. */
  predicate Justified(env: Env, a: Action)
  {
    match a
    case Granted(uid, pin) => TestAccess(env, uid, pin) == Ok(true)
    case Denied(uid, pin) => TestAccess(env, uid, pin) == Ok(false)
  }

  /** The number of accept commands in `cmds`. */
  function Accepts(cmds: seq<Command>): nat
    decreases |cmds|
  {
    if cmds == [] then 0
    else Accepts(cmds[..|cmds| - 1]) + (if IsAcceptCmd(cmds[|cmds| - 1]) then 1 else 0)
  }

  /** Once an exception has ended the loop, later input changes nothing. */
  lemma {:induction false} HaltedIsFinal(env: Env, cmds: seq<Command>, i: nat)
    requires i <= |cmds| && Exec(env, cmds[..i]).halted
    ensures Exec(env, cmds) == Exec(env, cmds[..i])
    decreases |cmds| - i
  {
    if i < |cmds| {
      var front := cmds[..|cmds| - 1];
      assert front[..i] == cmds[..i];
      HaltedIsFinal(env, front, i);
    } else {
      assert cmds[..i] == cmds;
    }
  }

  /** The door opens only for a user id and PIN that the verification
      accepted, and every refusal is one the verification gave. */
  lemma {:induction false} ActionsAreJustified(env: Env, cmds: seq<Command>)
    ensures forall j :: 0 <= j < |Exec(env, cmds).actions| ==> Justified(env, Exec(env, cmds).actions[j])
    decreases |cmds|
  {
    if cmds != [] {
      ActionsAreJustified(env, cmds[..|cmds| - 1]);
    }
  }

  /** An accept command read while the loop runs verifies the buffer as it
      stands, split into its first four characters (fewer if shorter) and
      the rest: the buffer stays as it is, the loop ends, with no action,
      exactly when an exception escapes `test_access`, and otherwise the
      outcome is added as one action. */
  lemma AcceptVerifiesBuffer(env: Env, cmds: seq<Command>, cmd: Command)
    requires IsAcceptCmd(cmd) && !Exec(env, cmds).halted
    ensures var buf := Feed([], cmds);
      var k := Min(4, |buf|);
      var (uid, pin) := (buf[..k], buf[k..]);
      && Exec(env, cmds + [cmd]).buf == buf
      && (Exec(env, cmds + [cmd]).halted <==> TestAccess(env, uid, pin).Raised?)
      && Exec(env, cmds + [cmd]).actions == Exec(env, cmds).actions +
           (if Exec(env, cmds + [cmd]).halted then []
            else [if TestAccess(env, uid, pin) == Ok(true) then Granted(uid, pin) else Denied(uid, pin)])
  {
  }

  /** The loop `while True: cmd = hw.readcmd(); ...` over the commands read,
      stopping early when an exception escapes `test_access`. */
  method Run(env: Env, cmds: seq<Command>) returns (buf: string, actions: seq<Action>, halted: bool)
    ensures Machine(buf, actions, halted) == Exec(env, cmds)
    ensures !halted ==> buf == DigitsOf(cmds[LastCancel(cmds) + 1..])
    ensures !halted ==> |actions| == Accepts(cmds)
    ensures forall j :: 0 <= j < |actions| ==> Justified(env, actions[j])
  {
    buf, actions, halted := [], [], false;
    var i := 0;
    while i < |cmds| && !halted
      invariant 0 <= i <= |cmds|
      invariant Machine(buf, actions, halted) == Exec(env, cmds[..i])
    {
      var cmd := cmds[i];
      assert cmds[..i + 1][..i] == cmds[..i];
      if IsDigitCmd(cmd) {
        buf := buf + [cmd[0]];
      }
      if IsAcceptCmd(cmd) {
        // `numbif` and `pin` in the source are slips for `numbuf` and `pw`.
        var uid, pin := buf[..Min(UidLength, |buf|)], buf[Min(UidLength, |buf|)..];
        var verdict := TestAccess(env, uid, pin);
        if verdict.Raised? {
          halted := true;
        } else if verdict.value {
          actions := actions + [Granted(uid, pin)];
        } else {
          actions := actions + [Denied(uid, pin)];
        }
      }
      if IsCancelCmd(cmd) {
        buf := [];
      }
      i := i + 1;
    }
    if halted {
      HaltedIsFinal(env, cmds, i);
    } else {
      assert cmds[..i] == cmds;
      FeedIsDigitsSinceCancel(cmds);
    }
    ActionsAreJustified(env, cmds);
  }
}
