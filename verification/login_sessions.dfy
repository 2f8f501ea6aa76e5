/** The one-shot login sessions of the client manager, against the history of calls. */
module LoginSessions {

  datatype SessionInfo = SessionInfo(session: string, time: int)

  type Sessions = map<string, SessionInfo>

  const MAX_AGE := 100

  datatype Call =
    | New(account: string, session: string, now: int)
    | Check(account: string, session: string, now: int)

  class SessionTable {
    var sessions: Sessions

    constructor ()
      ensures sessions == map[]
    {
      sessions := map[];
    }

    method NewAccountSession(account: string, session: string, now: int) returns (ok: bool)
      modifies this
      ensures ok && sessions == Step(old(sessions), New(account, session, now))
    {
      sessions := sessions[account := SessionInfo(session, now)];
      return true;
    }

    method CheckSessionByAccount(account: string, session: string, now: int) returns (ok: bool)
      modifies this
      ensures sessions == Step(old(sessions), Check(account, session, now))
      ensures ok == Passes(old(sessions), Check(account, session, now))
    {
      if account !in sessions {
        return false;
      }
      if sessions[account].session != session {
        return false;
      }
      if now - sessions[account].time > MAX_AGE {
        sessions := sessions - {account};
        return false;
      }
      sessions := sessions - {account};
      return true;
    }
  }

  /** The table after a call. A check with the right code takes the session away, too old or not. */
  function Step(s: Sessions, c: Call): Sessions {
    match c
    case New(account, session, now) => s[account := SessionInfo(session, now)]
    case Check(account, session, now) =>
      if account in s && s[account].session == session then s - {account} else s
  }

  predicate Passes(s: Sessions, c: Call) {
    c.Check? && c.account in s && s[c.account].session == c.session && c.now - s[c.account].time <= MAX_AGE
  }

  function After(calls: seq<Call>): Sessions {
    if calls == [] then map[] else Step(After(calls[..|calls| - 1]), calls[|calls| - 1])
  }

  /** Whether call `i` of a run is a check that succeeds. */
  predicate Succeeds(calls: seq<Call>, i: nat)
    requires i < |calls|
  {
    Passes(After(calls[..i]), calls[i])
  }

  /** Call `k` ends the session granted by call `j`: a newer one, or a check with its code. */
  predicate Ends(calls: seq<Call>, j: nat, k: nat)
    requires j < |calls| && k < |calls|
  {
    && calls[k].account == calls[j].account
    && (calls[k].New? || calls[k].session == calls[j].session)
  }

  /** Call `j` granted the session that is current for its account before call `n`. */
  ghost predicate Current(calls: seq<Call>, j: nat, n: nat)
    requires n <= |calls|
  {
    j < n && calls[j].New? && forall k :: j < k < n ==> !Ends(calls, j, k)
  }

  /** The table holds exactly the current sessions of the history. */
  lemma {:induction false} TableIsHistory(calls: seq<Call>, account: string)
    ensures account in After(calls) ==>
              exists j: nat :: Current(calls, j, |calls|) && calls[j].account == account
                          && After(calls)[account] == SessionInfo(calls[j].session, calls[j].now)
    ensures forall j: nat :: Current(calls, j, |calls|) && calls[j].account == account ==>
              account in After(calls) && After(calls)[account] == SessionInfo(calls[j].session, calls[j].now)
    decreases |calls|
  {
    if calls != [] {
      var n := |calls| - 1;
      var before := calls[..n];
      TableIsHistory(before, account);
      if account in After(calls) {
        if calls[n].New? && calls[n].account == account {
          assert Current(calls, n, |calls|);
        } else {
          var j: nat :| Current(before, j, n) && before[j].account == account
                   && After(before)[account] == SessionInfo(before[j].session, before[j].now);
          CurrentLater(calls, j);
        }
      }
      forall j: nat | Current(calls, j, |calls|) && calls[j].account == account
        ensures account in After(calls) && After(calls)[account] == SessionInfo(calls[j].session, calls[j].now)
      {
        if j < n {
          CurrentBefore(calls, j);
          assert !Ends(calls, j, n);
        }
      }
    }
  }

  lemma CurrentLater(calls: seq<Call>, j: nat)
    requires calls != [] && Current(calls[..|calls| - 1], j, |calls| - 1)
    ensures !Ends(calls, j, |calls| - 1) ==> Current(calls, j, |calls|)
  {
    forall k | j < k < |calls| - 1 ensures !Ends(calls, j, k) {
      assert !Ends(calls[..|calls| - 1], j, k);
    }
  }

  lemma CurrentBefore(calls: seq<Call>, j: nat)
    requires calls != [] && Current(calls, j, |calls|) && j < |calls| - 1
    ensures Current(calls[..|calls| - 1], j, |calls| - 1)
  {
    var before := calls[..|calls| - 1];
    forall k | j < k < |before| ensures !Ends(before, j, k) {
      assert !Ends(calls, j, k);
    }
  }

  lemma CurrentInPrefix(calls: seq<Call>, j: nat, i: nat)
    requires i <= |calls|
    ensures Current(calls[..i], j, i) <==> Current(calls, j, i)
  {
    if Current(calls[..i], j, i) {
      forall k | j < k < i ensures !Ends(calls, j, k) {
        assert !Ends(calls[..i], j, k);
      }
    }
    if Current(calls, j, i) {
      forall k | j < k < i ensures !Ends(calls[..i], j, k) {
        assert !Ends(calls, j, k);
      }
    }
  }

  /** The grant a successful check uses: the latest for its account, with its code, at most 100 seconds old. */
  ghost predicate Grants(calls: seq<Call>, j: nat, i: nat)
    requires i < |calls|
  {
    && Current(calls, j, i) && calls[j].account == calls[i].account
    && calls[j].session == calls[i].session && calls[i].now - calls[j].now <= MAX_AGE
  }

  /** A check succeeds exactly when the history holds a grant for it. */
  lemma SucceedsExactly(calls: seq<Call>, i: nat)
    requires i < |calls| && calls[i].Check?
    ensures Succeeds(calls, i) <==> exists j: nat :: Grants(calls, j, i)
  {
    var account := calls[i].account;
    TableIsHistory(calls[..i], account);
    if Succeeds(calls, i) {
      var j: nat :| Current(calls[..i], j, i) && calls[..i][j].account == account
               && After(calls[..i])[account] == SessionInfo(calls[..i][j].session, calls[..i][j].now);
      CurrentInPrefix(calls, j, i);
      assert Grants(calls, j, i);
    }
    if j: nat :| Grants(calls, j, i) {
      CurrentInPrefix(calls, j, i);
      assert calls[..i][j] == calls[j];
    }
  }

  /** Sessions are used once: no two successful checks have the same grant. */
  lemma OneShot(calls: seq<Call>, j: nat, i: nat, i2: nat)
    requires i < i2 < |calls| && calls[i].Check? && calls[i2].Check?
    requires Grants(calls, j, i)
    ensures !Grants(calls, j, i2)
  {
    assert Ends(calls, j, i);
  }
}
