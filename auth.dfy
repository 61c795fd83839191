/** Sessions and role gating: the `sess:<token>` entries of the object's
    storage, `readSession` (index.js:88-102) and `mustRole` (index.js:104-109). */
module Auth {
  import opened Wrappers
  import opened JsText
  import opened Api

  /** How long a login stays valid: 7 days, in milliseconds. */
  const SessionLifetime := 7 * 24 * 60 * 60 * 1000

  /** The value stored under "sess:" + token. */
  datatype Session = Session(username: string, role: string, exp: int)

  /** What `readSession` hands back: the token spread together with the stored session. */
  datatype ActiveSession = ActiveSession(token: string, username: string, role: string, exp: int)

  type SessionTable = map<string, Session>

  // ----- role gating -----

  /** The roles a session of role `role` may act as: an admin may do what staff may. */
  function Capabilities(role: string): set<string> {
    if role == Admin then {Admin, Staff} else if role == Staff then {Staff} else {}
  }

  /** `mustRole(sess, role)`: a session is needed, and only "admin" and
      "staff" are recognised as required roles. */
  function MustRole(sess: Option<ActiveSession>, role: string): (ok: bool)
    ensures ok <==> sess.Some? && role in Capabilities(sess.value.role)
  {
    if sess.None? then false
    else if role == Admin then sess.value.role == Admin
    else if role == Staff then sess.value.role == Staff || sess.value.role == Admin
    else false
  }

  /** Admin is a superset of staff; neither role passes a staff-only gate
      without being admin or staff. */
  lemma AdminIsSupersetOfStaff(sess: Option<ActiveSession>)
    ensures MustRole(sess, Admin) ==> MustRole(sess, Staff)
    ensures MustRole(sess, Staff) <==> sess.Some? && IsRole(sess.value.role)
    ensures MustRole(sess, Staff) && !MustRole(sess, Admin) ==> sess.value.role == Staff
  {
  }

  // ----- the Authorization header -----

  const Scheme := "Bearer"

  /** `h` starts with "Bearer" in any mix of letter case. */
  predicate SchemeAt(h: string) {
    |h| >= |Scheme| && forall i :: 0 <= i < |Scheme| ==> FoldCase(h[i]) == FoldCase(Scheme[i])
  }

  /** `/^Bearer\s+(.+)$/i` matches `h` with a white-space run of exactly `k`
      characters after the scheme; the captured group is then `h[|Scheme| + k..]`. */
  ghost predicate MatchesWithRun(h: string, k: nat) {
    && SchemeAt(h)
    && 1 <= k && |Scheme| + k < |h|
    && (forall i :: |Scheme| <= i < |Scheme| + k ==> IsSpace(h[i]))
    && (forall i :: |Scheme| + k <= i < |h| ==> !IsLineTerminator(h[i]))
  }

  /** The group captured by `/^Bearer\s+(.+)$/i`, with `\s+` greedy as the
      regular-expression engine takes it: the run stops at the first
      non-space, or gives back one character when nothing else follows. */
  function MatchBearer(h: string): (g: Option<string>)
    ensures g.Some? ==> g.value != [] && |g.value| <= |h| && g.value == h[|h| - |g.value|..]
    ensures g.Some? ==> NoLineTerminator(g.value)
  {
    if !SchemeAt(h) || |h| == |Scheme| || !IsSpace(h[|Scheme|]) then None
    else
      var m := SkipSpace(h, |Scheme|);
      if m < |h| then
        if NoLineTerminator(h[m..]) then Some(h[m..]) else None
      else if |h| - |Scheme| >= 2 && !IsLineTerminator(h[|h| - 1]) then Some(h[|h| - 1..])
      else None
  }

  lemma NoRunWithoutLeadingSpace(h: string)
    requires !SchemeAt(h) || |h| == |Scheme| || !IsSpace(h[|Scheme|])
    ensures forall k: nat :: !MatchesWithRun(h, k)
  {
  }

  /** The case where something other than white space follows the run:
      the longest run stops at that character. */
  lemma RunThenTail(h: string)
    requires SchemeAt(h) && |h| > |Scheme| && IsSpace(h[|Scheme|])
    requires SkipSpace(h, |Scheme|) < |h|
    ensures var m := SkipSpace(h, |Scheme|);
      && (NoLineTerminator(h[m..]) ==> MatchesWithRun(h, m - |Scheme|))
      && (forall k: nat :: MatchesWithRun(h, k) ==> |Scheme| + k <= m)
      && (!NoLineTerminator(h[m..]) ==> forall k: nat :: !MatchesWithRun(h, k))
  {
    var m := SkipSpace(h, |Scheme|);
    var tail := h[m..];
    assert !IsSpace(h[m]);
    if NoLineTerminator(tail) {
      forall i | m <= i < |h| ensures !IsLineTerminator(h[i]) {
        assert h[i] == tail[i - m];
      }
      assert MatchesWithRun(h, m - |Scheme|);
    }
    forall k: nat | MatchesWithRun(h, k)
      ensures |Scheme| + k <= m && NoLineTerminator(tail)
    {
      forall i | 0 <= i < |tail| ensures !IsLineTerminator(tail[i]) {
        assert tail[i] == h[m + i];
      }
    }
  }

  /** The case where only white space follows the scheme: the pattern can
      only take the last character as its group. */
  lemma RunOnly(h: string)
    requires SchemeAt(h) && |h| > |Scheme| && IsSpace(h[|Scheme|])
    requires SkipSpace(h, |Scheme|) == |h|
    ensures |h| - |Scheme| >= 2 && !IsLineTerminator(h[|h| - 1]) ==> MatchesWithRun(h, |h| - |Scheme| - 1)
    ensures forall k: nat :: MatchesWithRun(h, k) ==> |Scheme| + k <= |h| - 1
    ensures |h| - |Scheme| < 2 || IsLineTerminator(h[|h| - 1]) ==> forall k: nat :: !MatchesWithRun(h, k)
  {
    if |h| - |Scheme| >= 2 && !IsLineTerminator(h[|h| - 1]) {
      assert MatchesWithRun(h, |h| - |Scheme| - 1);
    }
    forall k: nat | MatchesWithRun(h, k)
      ensures |Scheme| + k <= |h| - 1 && |h| - |Scheme| >= 2 && !IsLineTerminator(h[|h| - 1])
    {
    }
  }

  /** MatchBearer agrees with the regular expression: it matches exactly when
      some white-space run makes the pattern match, and then it captures the
      group left by the longest such run. */
  lemma MatchBearerIsGreedyMatch(h: string)
    ensures MatchBearer(h).None? <==> forall k: nat :: !MatchesWithRun(h, k)
    ensures MatchBearer(h).Some? ==>
      var g := MatchBearer(h).value;
      && MatchesWithRun(h, |h| - |Scheme| - |g|)
      && forall k: nat :: MatchesWithRun(h, k) ==> |Scheme| + k <= |h| - |g|
  {
    if !SchemeAt(h) || |h| == |Scheme| || !IsSpace(h[|Scheme|]) {
      NoRunWithoutLeadingSpace(h);
    } else if SkipSpace(h, |Scheme|) < |h| {
      RunThenTail(h);
    } else {
      RunOnly(h);
    }
  }

  /** The token `readSession` takes from the header (index.js:89-93): the
      captured group, trimmed; nothing when the header does not match or the
      token trims to the empty string. */
  function HeaderToken(header: string): (t: Option<string>)
    ensures t.Some? ==> t.value != [] && IsTrimmed(t.value) && NoLineTerminator(t.value)
    ensures t.Some? ==> MatchBearer(header).Some?
    ensures t.None? <==> MatchBearer(header).None? || AllSpace(MatchBearer(header).value)
  {
    match MatchBearer(header)
    case None => None
    case Some(g) => var token := Trim(g); if token == [] then None else Some(token)
  }

  /** A header "Bearer", in any letter case, then white space, then a token
      that has no line break and no white space at its ends, then any
      trailing white space other than a line break, gives back that token. */
  lemma BearerRoundTrip(scheme: string, sep: string, token: string, trail: string)
    requires |scheme| == |Scheme| && SchemeAt(scheme)
    requires sep != [] && AllSpace(sep)
    requires token != [] && IsTrimmed(token) && NoLineTerminator(token)
    requires AllSpace(trail) && NoLineTerminator(trail)
    ensures HeaderToken(scheme + sep + token + trail) == Some(token)
  {
    var tail := token + trail;
    assert tail[0] == token[0];
    forall k | 0 <= k < |tail| ensures !IsLineTerminator(tail[k]) {
      if k < |token| {
        assert tail[k] == token[k];
      } else {
        assert tail[k] == trail[k - |token|];
      }
    }
    BearerMatch(scheme, sep, tail);
    assert scheme + sep + token + trail == scheme + sep + tail;
    TrimPadded([], token, trail);
    assert [] + token + trail == tail;
  }

  /** The pattern captures exactly the token of such a header. */
  lemma BearerMatch(scheme: string, sep: string, token: string)
    requires |scheme| == |Scheme| && SchemeAt(scheme)
    requires sep != [] && AllSpace(sep)
    requires token != [] && !IsSpace(token[0]) && NoLineTerminator(token)
    ensures MatchBearer(scheme + sep + token) == Some(token)
  {
    var h := scheme + sep + token;
    SchemeStillAt(scheme, sep + token);
    assert h == scheme + (sep + token);
    forall k | |Scheme| <= k < |Scheme| + |sep| ensures IsSpace(h[k]) {
      assert h[k] == sep[k - |Scheme|];
    }
    assert h[|Scheme| + |sep|] == token[0];
    SkipSpaceIsRunEnd(h, |Scheme|, |Scheme| + |sep|);
    assert h[|Scheme| + |sep|..] == token;
  }

  /** What follows the scheme does not change whether the header starts with it. */
  lemma SchemeStillAt(scheme: string, rest: string)
    requires |scheme| == |Scheme| && SchemeAt(scheme)
    ensures SchemeAt(scheme + rest)
  {
    var h := scheme + rest;
    forall i | 0 <= i < |Scheme| ensures FoldCase(h[i]) == FoldCase(Scheme[i]) {
      assert h[i] == scheme[i];
    }
  }

  // ----- readSession -----

  /** `sess.exp && Date.now() > sess.exp`: a zero expiry never expires. */
  predicate Expired(s: Session, now: int) {
    s.exp != 0 && now > s.exp
  }

  /** The session `readSession` returns at time `now` for the token taken
      from the header: the stored entry spread with its token, unless there is
      no token, no entry, or the entry has expired. */
  function Resolve(sessions: SessionTable, token: Option<string>, now: int): (r: Option<ActiveSession>)
    ensures r.Some? <==> token.Some? && token.value in sessions && !Expired(sessions[token.value], now)
    ensures r.Some? ==>
      var s := sessions[token.value];
      r.value == ActiveSession(token.value, s.username, s.role, s.exp)
  {
    match token
    case None => None
    case Some(t) =>
      if t !in sessions then None
      else
        var s := sessions[t];
        if Expired(s, now) then None else Some(ActiveSession(t, s.username, s.role, s.exp))
  }

  /** The session table after `readSession`: the presented token's entry is
      deleted when it has expired, and nothing else changes. */
  function Sweep(sessions: SessionTable, token: Option<string>, now: int): (m: SessionTable)
    ensures m.Keys <= sessions.Keys
    ensures forall t :: t in m ==> m[t] == sessions[t]
    ensures forall t :: t in sessions && t !in m ==> token == Some(t) && Expired(sessions[t], now)
    ensures Resolve(sessions, token, now).None? && token.Some? ==> token.value !in m
  {
    match token
    case None => sessions
    case Some(t) =>
      if t in sessions && Expired(sessions[t], now) then sessions - {t} else sessions
  }

  /** Logging out after `readSession`: whether the entry was swept for
      expiry or deleted by the logout itself, the presented token is gone
      and every other entry is kept. */
  lemma SweepThenRevoke(sessions: SessionTable, token: Option<string>, now: int)
    ensures var swept := Sweep(sessions, token, now);
      var r := Resolve(sessions, token, now);
      (if r.Some? then swept - {r.value.token} else swept)
        == (if token.Some? then sessions - {token.value} else sessions)
  {
  }

  /** A stored session with an expiry is accepted up to and including that
      instant and rejected at every later one. */
  lemma AcceptedUntilExpiry(sessions: SessionTable, token: string, now: int)
    requires token in sessions && sessions[token].exp != 0
    ensures Resolve(sessions, Some(token), now).Some? <==> now <= sessions[token].exp
  {
  }

  /** Once a token has been turned away for expiry it is gone: it is not
      accepted again, at any later time. */
  lemma ExpiredStaysRejected(sessions: SessionTable, token: string, now: int, later: int)
    requires token in sessions && Expired(sessions[token], now)
    ensures Resolve(Sweep(sessions, Some(token), now), Some(token), later).None?
  {
  }
}
