/** The verification decision `test_access(uid, pin)`: look the user up in
    the directory and check the PIN against the first entry found. */
module Access {
  import opened Common
  import opened Credentials

  /** A directory entry: attribute name to attribute value. */
  type Entry = map<string, string>

  /** What one lookup of a user id yields. Connecting and binding happen
      before the guarded part of `test_access`; the search itself inside it. */
  datatype Lookup =
    | ConnectFailed           // connecting or binding to the directory raised
    | SearchFailed            // the search raised
    | Found(entries: seq<Entry>)

  /** Everything `test_access` reads besides its arguments: the primitives
      of the password check, the directory (one lookup per user id) and the
      name of the attribute holding the PIN record. */
  datatype Env = Env(prims: Primitives, directory: string -> Lookup, pinField: string)

  /** `test_access(uid, pin)`. Every exception raised inside the guarded
      part (a failed search, no entry, no PIN attribute, an undecodable
      record) gives `false`; a failure to connect is not caught and reaches
      the caller. */
  function TestAccess(env: Env, uid: string, pin: string): (r: Result<bool>)
    ensures r.Raised? <==> env.directory(uid).ConnectFailed?
    ensures r.Raised? ==> r.error == ConnectError
    ensures r == Ok(true) <==>
      && env.directory(uid).Found?
      && |env.directory(uid).entries| > 0
      && env.pinField in env.directory(uid).entries[0]
      && PwCheck(env.prims, env.directory(uid).entries[0][env.pinField], pin) == Ok(true)
  {
    // `ldap_connect` uses `ldap`, never imported; connecting is taken as
    // something that either succeeds or raises.
    match env.directory(uid)
    case ConnectFailed => Raised(ConnectError)
    case SearchFailed => Ok(false)
    case Found(entries) =>
      if |entries| == 0 then Ok(false)                        // IndexError on [0]
      else if env.pinField !in entries[0] then Ok(false)      // KeyError on the field
      else
        match PwCheck(env.prims, entries[0][env.pinField], pin)
        case Raised(_) => Ok(false)
        case Ok(matches) => Ok(matches)
  }

  /** Access is refused, without an exception, when the directory answers
      with no entry or the search fails. */
  lemma NoEntryRefuses(env: Env, uid: string, pin: string)
    requires env.directory(uid) == SearchFailed || env.directory(uid) == Found([])
    ensures TestAccess(env, uid, pin) == Ok(false)
  {
  }

  /** Only the first entry matters: entries after it are never consulted. */
  lemma OnlyFirstEntryCounts(env: Env, uid: string, pin: string, first: Entry, rest: seq<Entry>)
    requires env.directory(uid) == Found([first] + rest)
    ensures TestAccess(env, uid, pin) ==
      Ok(env.pinField in first && PwCheck(env.prims, first[env.pinField], pin) == Ok(true))
  {
  }
}
