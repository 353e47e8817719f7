/** The small pure steps of ZabbixController's JSON-RPC plumbing: parsing the
    configured hostgroup list, checking the login reply, and the history
    request's "limit". */
module Api {
  import opened Json

  // ---------------------------------------------------------------------
  // str.split(',') and str.strip()
  // ---------------------------------------------------------------------

  /** The characters Python 2's str.strip() removes. */
  const Whitespace: set<char> := {' ', '\t', '\n', '\r', '\U{B}', '\U{C}'}

  /** str.split(sep): the pieces between occurrences of `sep`; there is always
      at least one piece and none contains `sep`. */
  function Split(s: string, sep: char): (pieces: seq<string>)
    ensures |pieces| >= 1
    ensures forall i :: 0 <= i < |pieces| ==> sep !in pieces[i]
  {
    if s == [] then [[]]
    else
      var rest := Split(s[1..], sep);
      if s[0] == sep then [[]] + rest
      else [[s[0]] + rest[0]] + rest[1..]
  }

  /** sep.join(pieces), the independent inverse of Split. */
  function Join(pieces: seq<string>, sep: char): string
    requires |pieces| >= 1
  {
    if |pieces| == 1 then pieces[0] else pieces[0] + [sep] + Join(pieces[1..], sep)
  }

  /** Number of occurrences of `c` in `s`. */
  function Occurrences(s: string, c: char): nat
  {
    if s == [] then 0 else (if s[0] == c then 1 else 0) + Occurrences(s[1..], c)
  }

  /** Joining the pieces of a split gives back the original string. */
  lemma {:induction false} JoinSplit(s: string, sep: char)
    ensures Join(Split(s, sep), sep) == s
  {
    if s != [] {
      JoinSplit(s[1..], sep);
      var rest := Split(s[1..], sep);
      if s[0] != sep {
        if |rest| == 1 {
          assert Join(Split(s, sep), sep) == [s[0]] + rest[0];
        } else {
          assert Join(Split(s, sep), sep) == [s[0]] + rest[0] + [sep] + Join(rest[1..], sep);
        }
      }
    }
  }

  /** Splitting a separator-free prefix glued to `t` extends t's first piece. */
  lemma {:induction false} SplitFreePrefix(p: string, t: string, sep: char)
    requires sep !in p
    ensures Split(p + t, sep) == [p + Split(t, sep)[0]] + Split(t, sep)[1..]
  {
    if p != [] {
      assert (p + t)[1..] == p[1..] + t;
      SplitFreePrefix(p[1..], t, sep);
      assert [p[0]] + (p[1..] + Split(t, sep)[0]) == p + Split(t, sep)[0];
    } else {
      var pieces := Split(t, sep);
      assert p + t == t;
      assert p + pieces[0] == pieces[0];
      assert [p + pieces[0]] + pieces[1..] == pieces;
    }
  }

  /** Splitting a join of separator-free pieces gives back the pieces. */
  lemma {:induction false} SplitJoin(pieces: seq<string>, sep: char)
    requires |pieces| >= 1
    requires forall i :: 0 <= i < |pieces| ==> sep !in pieces[i]
    ensures Split(Join(pieces, sep), sep) == pieces
  {
    if |pieces| == 1 {
      SplitFreePrefix(pieces[0], [], sep);
      assert pieces[0] + [] == pieces[0];
    } else {
      var rest := pieces[1..];
      assert forall i :: 0 <= i < |rest| ==> rest[i] == pieces[i + 1];
      var tail := Join(rest, sep);
      SplitJoin(rest, sep);
      var u := [sep] + tail;
      assert u[1..] == tail;
      assert Split(u, sep) == [[]] + rest;
      assert Join(pieces, sep) == pieces[0] + u;
      SplitFreePrefix(pieces[0], u, sep);
      assert pieces[0] + [] == pieces[0];
      assert [pieces[0]] + rest == pieces;
    }
  }

  /** A split yields one more piece than there are separators. */
  lemma {:induction false} SplitCount(s: string, sep: char)
    ensures |Split(s, sep)| == Occurrences(s, sep) + 1
  {
    if s != [] {
      SplitCount(s[1..], sep);
    }
  }

  /** str.lstrip(): drops the leading whitespace and nothing else. */
  function StripLeft(s: string): (r: string)
    ensures |r| <= |s| && r == s[|s| - |r|..]
    ensures forall k :: 0 <= k < |s| - |r| ==> s[k] in Whitespace
    ensures r == [] || r[0] !in Whitespace
  {
    if s != [] && s[0] in Whitespace then StripLeft(s[1..]) else s
  }

  /** str.rstrip(): drops the trailing whitespace and nothing else. */
  function StripRight(s: string): (r: string)
    ensures |r| <= |s| && r == s[..|r|]
    ensures forall k :: |r| <= k < |s| ==> s[k] in Whitespace
    ensures r == [] || r[|r| - 1] !in Whitespace
  {
    if s != [] && s[|s| - 1] in Whitespace then StripRight(s[..|s| - 1]) else s
  }

  /** str.strip(): both ends stripped; what is left starts and ends with a
      non-whitespace character. */
  function Strip(s: string): (r: string)
    ensures |r| <= |s|
    ensures r == [] || (r[0] !in Whitespace && r[|r| - 1] !in Whitespace)
  {
    var l := StripLeft(s);
    var r := StripRight(l);
    assert r == [] || r[0] == l[0];
    r
  }

  /** Strip keeps the infix of `s` that starts where StripLeft does. */
  lemma StripIsInfix(s: string)
    ensures var i, r := |s| - |StripLeft(s)|, Strip(s);
      i + |r| <= |s| && r == s[i..i + |r|]
  {
    var l := StripLeft(s);
    var r := StripRight(l);
    var i := |s| - |l|;
    assert Strip(s) == r;
    assert r == l[..|r|];
    PrefixOfSuffix(s, i, |r|);
  }

  lemma PrefixOfSuffix(s: string, i: nat, n: nat)
    requires i + n <= |s|
    ensures s[i..][..n] == s[i..i + n]
  {
  }

  /** Strip removes only whitespace, before and after that infix. */
  lemma StripRemovesWhitespace(s: string)
    ensures var i, r := |s| - |StripLeft(s)|, Strip(s);
      && (forall k :: 0 <= k < i ==> s[k] in Whitespace)
      && (forall k :: i + |r| <= k < |s| ==> s[k] in Whitespace)
  {
    var l := StripLeft(s);
    var r := StripRight(l);
    var i := |s| - |l|;
    assert Strip(s) == r;
    forall k | i + |r| <= k < |s|
      ensures s[k] in Whitespace
    {
      assert s[k] == l[k - i];
    }
  }

  /** Stripping twice is stripping once. */
  lemma StripIdempotent(s: string)
    ensures Strip(Strip(s)) == Strip(s)
  {
    var r := Strip(s);
    if r != [] {
      assert StripLeft(r) == r;
      assert StripRight(r) == r;
    }
  }

  /** The hostgroup names read from the comma-separated configuration value
      (zabbix.py line 163): one name per comma-separated piece, each trimmed. */
  function ParseHostgroups(config: string): (groups: seq<string>)
    ensures |groups| == |Split(config, ',')| == Occurrences(config, ',') + 1
    ensures forall i :: 0 <= i < |groups| ==> ',' !in groups[i]
    ensures forall i :: 0 <= i < |groups| ==>
      groups[i] == [] || (groups[i][0] !in Whitespace && groups[i][|groups[i]| - 1] !in Whitespace)
    ensures forall i :: 0 <= i < |groups| ==> groups[i] == Strip(Split(config, ',')[i])
  {
    var pieces := Split(config, ',');
    SplitCount(config, ',');
    seq(|pieces|, i requires 0 <= i < |pieces| => Strip(pieces[i]))
  }

  // ---------------------------------------------------------------------
  // get_zabbix_auth
  // ---------------------------------------------------------------------

  /** The outcome of the login call. */
  datatype AuthOutcome =
    | Authenticated(token: Json)  // the "result" member of the reply
    | AuthRejected                // ZabbixAuthError: the reply has an "error" member
    | NoResult                    // KeyError: neither "error" nor "result"

  /** An "error" member makes the login fail whatever else the reply holds;
      otherwise the token is the "result" member. */
  function GetZabbixAuth(reply: map<string, Json>): (r: AuthOutcome)
    ensures r.AuthRejected? <==> "error" in reply
    ensures r.Authenticated? <==> "error" !in reply && "result" in reply
    ensures r.Authenticated? ==> r.token == reply["result"]
  {
    if "error" in reply then AuthRejected
    else if "result" in reply then Authenticated(reply["result"])
    else NoResult
  }

  // ---------------------------------------------------------------------
  // get_history
  // ---------------------------------------------------------------------

  /** The "limit" of a history.get request: one point per requested id, where
      a list names several ids and anything else stands for one. */
  function HistoryLimit(itemids: Json): (limit: nat)
    ensures itemids.JArray? ==> limit == |itemids.items|
    ensures !itemids.JArray? ==> limit == 1
  {
    if itemids.JArray? then |itemids.items| else 1
  }
}
