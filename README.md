# loccctrl: a verified model of the door-access controller

`loccctrl.py` drives a door through a keypad on a serial line. Its main loop
reads one command line at a time into a digit buffer. An accept command (`A`
or `H`) splits the buffer into a user id, its first four characters (fewer if
the buffer is shorter), and a PIN, the rest, and asks `test_access`. That
function looks the user up in an LDAP directory and checks the PIN against the
first entry's PIN attribute with `pwcheck`. `pwcheck` compares plain records
by equality and OpenLDAP `{SSHA}` records by salted SHA-1. When access is
granted the door is opened. A cancel command (`C` or `h`) empties the buffer.
`set_led` writes a three-byte LED frame.

The model, one module per concern:

- `Common` (common.dfy): bytes, `Option`, the exceptions kept apart as
  `Result`, and Python's slicing `s[:n]`, `s[n:]` as `SplitAt`.
- `Credentials` (credentials.dfy): `pwcheck`. Base64 decoding (section 4 of
  RFC 4648), SHA-1 (FIPS 180-4) and UTF-8 encoding are uninterpreted functions
  held in a `Primitives` value. SHA-1 returns a 20-byte `Digest`.
- `Access` (access.dfy): `test_access`. The directory is a function from user
  id to a `Lookup`: `ConnectFailed`, `SearchFailed` or `Found(entries)`.
- `Keypad` (keypad.dfy): command classes, the one-step buffer update `Step`,
  its fold `Feed`, and the reference `DigitsOf` / `LastCancel`.
- `Controller` (controller.dfy): the loop body as `Next` over a `Machine`,
  its fold `Exec`, and the imperative loop `Run`. `Run` is proved equal to
  `Exec`.
- `Hardware` (hardware.dfy): the `set_led` frame and a parser for it.

loccctrl.py contains slips that stop it from running. The model follows
what the code evidently means, and each choice is listed here:

- loccctrl.py:57 adds `int(cmd)` to a list, which raises `TypeError`. The
  model appends the digit character.
- loccctrl.py:60 reads `numbif`, a misspelling of `numbuf`.
- loccctrl.py:61 passes the undefined `pin`. The model passes the PIN part
  of the buffer (`pw`).
- loccctrl.py:14, 17 and 20 define methods without `self`, and
  loccctrl.py:21 reads a bare `ser`. The model treats them as methods of
  the one hardware object.
- loccctrl.py:24 uses `ldap`, which is never imported. The model takes
  connecting to the directory as something that may succeed or raise.
- loccctrl.py:21 returns `bytes`, and loccctrl.py:56 compares them with
  `str` digits. The model treats commands as text.
- The buffer is a list. Its slices at loccctrl.py:59-60 are therefore lists,
  and `pwcheck` would compare a `str` record with a list. The model treats
  the buffer, user id and PIN as strings.

`ldap_connect()` (loccctrl.py:38) is called before the `try` of
`test_access`. A connection failure therefore escapes `test_access` and ends
the main loop. A failed search, an empty result, a missing PIN attribute or
an undecodable `{SSHA}` body is raised inside the `try` and gives `false`.
The model keeps the two apart: `Raised(ConnectError)` halts the `Machine`,
and the others give `Ok(false)`.

## Model

| member | source | states |
|---|---|---|
| Common.SplitAt | loccctrl.py:32-33 | the two slices `s[:n]`, `s[n:]` put together give `s`, and the first has length min(n, len(s)) |
| Credentials.PwCheck | loccctrl.py:28-35 | an exception is raised exactly when the record is `{SSHA}` and its body does not decode, and it is a base64 error |
| Credentials.PlainRecordIsEquality | loccctrl.py:29-30 | a record without the `{SSHA}` prefix matches exactly the password equal to it |
| Credentials.SshaCheckIsDigestComparison | loccctrl.py:31-35 | the decoded body splits at byte 20 into digest and salt, digest followed by salt is the body, the digest has length min(20, len(body)), and the check passes iff SHA-1(UTF-8(pw) followed by salt) equals the digest |
| Credentials.ShortBodyNeverMatches | loccctrl.py:32-35 | an `{SSHA}` body shorter than 20 bytes never matches, since SHA-1 output is 20 bytes |
| Credentials.SshaRecordAcceptsItsSecret | loccctrl.py:31-35 | a record whose body is SHA-1(secret followed by salt) followed by the salt accepts `secret`, and accepts `pw` iff `pw` hashes with that salt to the same digest |
| Access.TestAccess | loccctrl.py:37-46 | an exception escapes iff connecting fails; the result is true iff the search found an entry, the first entry has the PIN attribute, and `pwcheck` accepts that attribute's value for the PIN |
| Access.NoEntryRefuses | loccctrl.py:40-46 | a failed search or an empty result gives false without an exception |
| Access.OnlyFirstEntryCounts | loccctrl.py:41-43 | only the first entry returned is consulted; later entries never change the result |
| Keypad.NumsAreDigitCommands | loccctrl.py:50 | the members of `nums` are exactly the one-character commands `0` to `9` |
| Keypad.CommandClassesDisjoint | loccctrl.py:56-66 | digit, accept and cancel commands are pairwise disjoint, so at most one branch acts per command |
| Keypad.Step | loccctrl.py:56-67 | a digit command appends that digit at the end, a cancel command empties the buffer, and every other command (accept included) leaves it unchanged |
| Keypad.DigitsOf | loccctrl.py:56-57 | the digits collected are never more than the commands read and are all characters `0` to `9` |
| Keypad.LastCancel | loccctrl.py:66-67 | the index found holds a cancel command and no later command is a cancel; -1 means there is none |
| Keypad.Feed | loccctrl.py:52-67 | the buffer grows by at most one character per command; it either still starts with the initial buffer followed by digits only, or a cancel has emptied it and it holds digits only |
| Keypad.FeedAppend | loccctrl.py:53-67 | feeding two runs of input one after the other equals feeding their concatenation |
| Keypad.FeedWithoutCancel | loccctrl.py:53-57 | with no cancel in the input, the final buffer is the initial one followed by the input's digit characters, in order |
| Keypad.FeedIsDigitsSinceCancel | loccctrl.py:52-67 | from the empty buffer, the buffer holds exactly the digits entered since the last cancel, in order |
| Controller.HaltedIsFinal | loccctrl.py:38-61 | once a connection failure has escaped `test_access`, the loop has ended and later input changes nothing |
| Controller.Next | loccctrl.py:54-67 | a halted loop stays as it is; a non-accept command updates only the buffer, by the keypad step; an accept command keeps the buffer, verifies its first min(4, len(buf)) characters as user id and the rest as PIN, halts iff `test_access` raises, adding no action then, and otherwise appends exactly one Granted (on true) or Denied (on false) action |
| Controller.Exec | loccctrl.py:52-67 | while no exception has ended the loop, its buffer is the keypad fold of the input and it has taken exactly one action per accept command; in every case there are no more actions than accept commands |
| Controller.AcceptVerifiesBuffer | loccctrl.py:58-65 | an accept read while the loop runs leaves the buffer as the keypad fold made it, verifies that buffer's first min(4, len(buf)) characters as user id and the rest as PIN, ends the loop iff `test_access` raises, adding no action then, and otherwise adds exactly the Granted or Denied action for that outcome |
| Controller.ActionsAreJustified | loccctrl.py:61-65 | the door opens only for a user id and PIN that `test_access` accepted, and every refusal is a false from `test_access` |
| Controller.Run | loccctrl.py:52-67 | the imperative loop ends in the state the loop body's fold gives; if still running, its buffer is the digits since the last cancel and it has taken one action per accept; every action agrees with `test_access` |
| Hardware.LedFrame | loccctrl.py:14-15 | a frame exists iff the value is 0 to 9 (otherwise `ord` raises `TypeError`); it is three bytes, the first 0 or 1, the last a newline |
| Hardware.LedFrameRoundTrip | loccctrl.py:15 | parsing a frame gives back the LED's truth value and the value, and every well-formed frame is the one written for what it carries |

## Left out

- Serial I/O (loccctrl.py:11-21): opening the port, `write`, `readline` and the door command bytes of `open()`. Commands read become an input sequence of lines without their last character; opening the door becomes the `Granted` action.
- LDAP connection, bind and search (loccctrl.py:23-26, 41): foreign library calls. One lookup per user id is an abstract `Lookup`. The directory is one fixed function for a whole run, so the model does not capture a directory that changes between two accept commands. The search filter text and attribute names are configuration; the PIN attribute's name is a parameter.
- base64, SHA-1 and UTF-8 (`base64`, `hashlib`, `bytes(pw, 'UTF-8')`): uninterpreted, with only the 20-byte length of a SHA-1 digest. UTF-8 encoding is taken to be total.
- Logging with `print` (loccctrl.py:39, 45, 55, 62, 65), except that `Denied` stands for the "Access denied" branch.
- Module-level `config` values (port, baud rate, LDAP names, filter, PIN field).
- The loop runs forever in the source. The model reads a finite sequence of commands and ends when the sequence does or when an exception escapes.
