/** The keypad's input buffer: one command line at a time, digits are
    collected, an accept command splits the buffer into user id and PIN, a
    cancel command empties it. */
module Keypad {
  import opened Common

  /** One line read from the keypad, without its final character. The line
      is taken as text: `readline` gives bytes, which would never equal the
      `str` digits of `Nums`. */
  type Command = string

  /** The commands that count as digits: "0" to "9". */
  const Nums: seq<Command> := ["0", "1", "2", "3", "4", "5", "6", "7", "8", "9"]

  /** How many leading characters of the buffer form the user id. */
  const UidLength: nat := 4

  /** Every character of `s` is a decimal digit. */
  predicate AllDigits(s: string)
  {
    forall i :: 0 <= i < |s| ==> '0' <= s[i] <= '9'
  }

  predicate IsDigitCmd(cmd: Command)
  {
    |cmd| == 1 && '0' <= cmd[0] <= '9'
  }

  predicate IsAcceptCmd(cmd: Command)
  {
    cmd == "A" || cmd == "H"
  }

  predicate IsCancelCmd(cmd: Command)
  {
    cmd == "C" || cmd == "h"
  }

  /** The digit commands are exactly the members of `Nums`. */
  lemma NumsAreDigitCommands(cmd: Command)
    ensures cmd in Nums <==> IsDigitCmd(cmd)
  {
    if IsDigitCmd(cmd) {
      assert cmd == [cmd[0]];
    }
  }

  /** Digits, accept commands and cancel commands are pairwise disjoint, so
      at most one branch of the loop body acts on a command. */
  lemma CommandClassesDisjoint(cmd: Command)
    ensures !(IsDigitCmd(cmd) && IsAcceptCmd(cmd))
    ensures !(IsDigitCmd(cmd) && IsCancelCmd(cmd))
    ensures !(IsAcceptCmd(cmd) && IsCancelCmd(cmd))
  {
  }

  /** The effect of one command on the buffer. The three tests are made one
      after the other, as in the loop body; an accept command leaves the
      buffer as it is. */
  function Step(buf: string, cmd: Command): (r: string)
    ensures IsDigitCmd(cmd) ==> r == buf + cmd
    ensures IsCancelCmd(cmd) ==> r == []
    ensures !IsDigitCmd(cmd) && !IsCancelCmd(cmd) ==> r == buf
  {
    // `numbuf += int(cmd)` raises TypeError; the digit character is meant.
    var afterDigit := if IsDigitCmd(cmd) then buf + [cmd[0]] else buf;
    if IsCancelCmd(cmd) then [] else afterDigit
  }

  /** The buffer after feeding `cmds`, in order, starting from `buf`: it
      grows by at most one character per command, and it either still
      starts with `buf` followed only by digits, or a cancel has emptied it
      and it holds digits only. */
  function Feed(buf: string, cmds: seq<Command>): (r: string)
    decreases |cmds|
    ensures |r| <= |buf| + |cmds|
    ensures buf <= r || AllDigits(r)
    ensures buf <= r ==> AllDigits(r[|buf|..])
  {
    if cmds == [] then buf
    else Step(Feed(buf, cmds[..|cmds| - 1]), cmds[|cmds| - 1])
  }

  /** The digit characters of `cmds`, in order; a reference for `Feed` that
      knows nothing about the buffer. */
  function DigitsOf(cmds: seq<Command>): (d: string)
    decreases |cmds|
    ensures |d| <= |cmds|
    ensures AllDigits(d)
  {
    if cmds == [] then []
    else
      var last := cmds[|cmds| - 1];
      DigitsOf(cmds[..|cmds| - 1]) + (if IsDigitCmd(last) then last else [])
  }

  /** The position of the last cancel command in `cmds`, or -1 if there is
      none. */
  function LastCancel(cmds: seq<Command>): (k: int)
    decreases |cmds|
    ensures -1 <= k < |cmds|
    ensures k >= 0 ==> IsCancelCmd(cmds[k])
    ensures forall j :: k < j < |cmds| ==> !IsCancelCmd(cmds[j])
  {
    if cmds == [] then -1
    else if IsCancelCmd(cmds[|cmds| - 1]) then |cmds| - 1
    else LastCancel(cmds[..|cmds| - 1])
  }

  /** Feeding two runs of commands one after the other is feeding their
      concatenation. */
  lemma {:induction false} FeedAppend(buf: string, a: seq<Command>, b: seq<Command>)
    ensures Feed(buf, a + b) == Feed(Feed(buf, a), b)
    decreases |b|
  {
    if b == [] {
      assert a + b == a;
    } else {
      var b' := b[..|b| - 1];
      assert (a + b)[..|a + b| - 1] == a + b';
      FeedAppend(buf, a, b');
    }
  }

  /** Without a cancel command, the buffer grows by exactly the digit
      characters of the input, in order; everything else is ignored. */
  lemma {:induction false} FeedWithoutCancel(buf: string, cmds: seq<Command>)
    requires forall j :: 0 <= j < |cmds| ==> !IsCancelCmd(cmds[j])
    ensures Feed(buf, cmds) == buf + DigitsOf(cmds)
    decreases |cmds|
  {
    if cmds != [] {
      FeedWithoutCancel(buf, cmds[..|cmds| - 1]);
    }
  }

  /** Starting from the empty buffer, the buffer holds the digit characters
      entered since the last cancel command (all of them if there was
      none). */
  lemma FeedIsDigitsSinceCancel(cmds: seq<Command>)
    ensures Feed([], cmds) == DigitsOf(cmds[LastCancel(cmds) + 1..])
  {
    var k := LastCancel(cmds);
    var tail := cmds[k + 1..];
    if k < 0 {
      assert tail == cmds;
      FeedWithoutCancel([], cmds);
    } else {
      var head := cmds[..k + 1];
      assert cmds == head + tail;
      FeedAppend([], head, tail);
      assert head[..|head| - 1] == cmds[..k];
      assert Feed([], head) == [];
      FeedWithoutCancel([], tail);
    }
  }
}
