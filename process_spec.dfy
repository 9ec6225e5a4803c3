/** The frozen launch record of a monitored process, and the uid/gid part of the monitor's repr. */
module ProcessSpec {
  import opened Wrappers
  import opened Decimal

  /** An argv: the executable followed by its arguments. The monitor takes the executable
      from the first entry, so it is never empty. */
  type Argv = a: seq<string> | |a| > 0 witness [""]

  /** `_Process`: argv, optional uid and gid overrides, environment and working directory.
      The environment defaults to a fresh empty mapping; `None` means "inherit". */
  datatype Process = Process(
    args: Argv,
    uid: Option<int> := None,
    gid: Option<int> := None,
    env: map<string, string> := map[],
    cwd: Option<string> := None)

  function IdText(id: Option<int>): string {
    if id.Some? then IntToString(id.value) else ""
  }

  /** The suffix the monitor's repr prints after a process name: "" when neither id is set,
      otherwise "(uid)", "(:gid)" or "(uid:gid)". */
  function UidGid(uid: Option<int>, gid: Option<int>): (s: string)
    ensures s == "" <==> uid.None? && gid.None?
    ensures s != "" ==> |s| >= 3 && s[0] == '(' && s[|s| - 1] == ')'
  {
    var ug := if gid.Some? then IdText(uid) + ":" + IntToString(gid.value) else IdText(uid);
    if ug != "" then "(" + ug + ")" else ug
  }

  /** Reads an id back; the empty text stands for "not set". */
  function ParseId(s: string): Option<Option<int>> {
    if s == "" then Some(None)
    else match ParseInt(s)
      case Some(i) => Some(Some(i))
      case None => None
  }

  /** Reads a uid/gid suffix back into the pair of optional ids it was made from. */
  function ParseUidGid(s: string): Option<(Option<int>, Option<int>)> {
    if s == "" then Some((None, None))
    else if |s| < 3 || s[0] != '(' || s[|s| - 1] != ')' then None
    else
      var inner := s[1..|s| - 1];
      match IndexOf(inner, ':')
      case None =>
        (match ParseInt(inner)
         case Some(u) => Some((Some(u), None))
         case None => None)
      case Some(k) =>
        (match (ParseId(inner[..k]), ParseInt(inner[k + 1..]))
         case (Some(u), Some(g)) => Some((u, Some(g)))
         case _ => None)
  }

  lemma IdTextNoColon(id: Option<int>)
    ensures ':' !in IdText(id)
    ensures ParseId(IdText(id)) == Some(id)
  {
    if id.Some? {
      ParseIntToString(id.value);
    }
  }

  /** The suffix is unambiguous: both ids can be read back from it. */
  lemma UidGidRoundTrip(uid: Option<int>, gid: Option<int>)
    ensures ParseUidGid(UidGid(uid, gid)) == Some((uid, gid))
  {
    var s := UidGid(uid, gid);
    IdTextNoColon(uid);
    if gid.Some? {
      var u := IdText(uid);
      var g := IntToString(gid.value);
      var inner := u + ":" + g;
      assert s[1..|s| - 1] == inner;
      IndexOfAfter(u, ':', g);
      assert inner[..|u|] == u;
      assert inner[|u| + 1..] == g;
      ParseIntToString(gid.value);
    } else if uid.Some? {
      assert s[1..|s| - 1] == IdText(uid);
      ParseIntToString(uid.value);
    }
  }
}
