/** What each desktop command does to the cells and to the sessions one by one, and when it fails with what error. */
module DesktopEffects {
  import opened Text
  import opened CodePoints
  import opened DesktopRuntime

  // ----- ids and sessions -----

  predicate PlainChar(c: char) {
    'a' <= c <= 'z' || 'A' <= c <= 'Z' || '0' <= c <= '9' || c in {'-', '_', '.'}
  }

  /** The id that a command was given: 1 to 80 plain characters, once trimmed. */
  predicate Given(rawId: string, id: string) {
    id == Trim(rawId) && 1 <= |id| <= 80 && forall k :: 0 <= k < |id| ==> PlainChar(id[k])
  }

  /** A usable key: one was read and it is not blank. */
  predicate HasKey(secret: Secret) { secret.Secret? && Trim(secret.text) != [] }

  predicate Is(s: State, k: nat, id: string) { k < |s.sessions| && s.sessions[k].id == id }

  /** Only the session with the id changes, as the given function says. */
  predicate OneChanges(before: seq<Session>, after: seq<Session>, id: string, change: Session -> Session) {
    |after| == |before| && forall k :: 0 <= k < |before| ==> after[k] == if before[k].id == id then change(before[k]) else before[k]
  }

  lemma GivenIs(rawId: string, id: string)
    ensures Given(rawId, id) <==> NormalizeId(rawId) == Ok(id)
    ensures if NormalizeId(rawId).Ok? then NormalizeId(rawId).value == Trim(rawId) else NormalizeId(rawId).error == InvalidId
  {
    hide Trim;
    assert forall c :: PlainChar(c) <==> IdChar(c);
  }

  lemma HasKeyIs(secret: Secret)
    ensures HasKey(secret) <==> Usable(secret)
  {
    hide Trim;
  }

  /** The session that a search finds is the only one of its id. */
  lemma FoundIs(s: State, id: string)
    requires UniqueIds(s.sessions)
    ensures var k := Find(s.sessions, id);
            if k < |s.sessions| then forall j: nat :: Is(s, j, id) <==> j == k else forall j: nat :: !Is(s, j, id)
  {
    hide Find;
  }

  lemma ReplacedOne(sessions: seq<Session>, id: string, change: Session -> Session)
    requires UniqueIds(sessions) && forall x :: change(x).id == x.id
    ensures var k := Find(sessions, id);
            if k < |sessions| then OneChanges(sessions, Replace(sessions, change(sessions[k])), id, change)
                                   && Replace(sessions, change(sessions[k]))[k] == change(sessions[k])
            else OneChanges(sessions, sessions, id, change)
  {
    var k := Find(sessions, id);
    if k < |sessions| {
      var x := change(sessions[k]);
      assert Find(sessions, x.id) == k;
      assert Replace(sessions, x) == sessions[k := x];
    }
  }

  // ----- the end of a tunnel -----

  function ToStopped(now: Millis): Session -> Session {
    (x: Session) => x.(runtimeStatus := Stopped, status := if x.credentialAvailable then CredentialReady else MetadataOnly, updatedAt := now)
  }

  function To(status: Status, now: Millis): Session -> Session {
    (x: Session) => x.(runtimeStatus := status, status := status, updatedAt := now)
  }

  /** The tunnel is gone: its process is reaped, its registered files are deleted unless they are stuck, and its session
      changes as given. */
  predicate Ends(s: State, t: State, stuck: set<Path>, change: Session -> Session) {
    && t.profile == None && t.child == None && t.tempFiles == [] && t.selected == s.selected
    && t.disk == (set p | p in s.disk && (p !in s.tempFiles || p in stuck))
    && t.processes == (set p | p in s.processes && s.child != Some(p))
    && if s.profile.Some? then OneChanges(s.sessions, t.sessions, s.profile.value.sessionId, change) else t.sessions == s.sessions
  }

  /** A stop ends the tunnel and leaves its session ready, or without a credential. */
  lemma StopEffect(s: State, stuck: set<Path>, now: Millis)
    requires Inv(s)
    ensures Ends(s, StopRuntime(s, stuck, now), stuck, ToStopped(now))
  {
    if s.profile.Some? {
      ReplacedOne(s.sessions, s.profile.value.sessionId, ToStopped(now));
    }
    hide Inv, OneChanges, UniqueIds;
  }

  /** A check does nothing without a tunnel, ends one whose process is gone as lost, and else records its health. */
  lemma CheckEffect(s: State, exited: bool, healthy: bool, stuck: set<Path>, now: Millis)
    requires Inv(s)
    ensures var (t, p) := CheckRuntime(s, exited, healthy, stuck, now);
            if s.profile == None then t == s && p == None
            else if s.child == None || exited then p == None && Ends(s, t, stuck, To(RuntimeLost, now))
            else
              && p == Some(s.profile.value.(healthy := healthy, lastHealthAt := now)) && t == s.(profile := p, sessions := t.sessions)
              && OneChanges(s.sessions, t.sessions, s.profile.value.sessionId, To(if healthy then RuntimeActive else RuntimeUnhealthy, now))
  {
    if s.profile.Some? {
      ReplacedOne(s.sessions, s.profile.value.sessionId, To(RuntimeLost, now));
      ReplacedOne(s.sessions, s.profile.value.sessionId, To(if healthy then RuntimeActive else RuntimeUnhealthy, now));
    }
    hide Inv, OneChanges, UniqueIds;
  }

  // ----- start -----

  /** Why a launch fails: its key file cannot be written whole under a new name, or there is no port, no ssh, no process or
      no healthy tunnel. */
  function WhyFails(disk: set<Path>, key: KeyWrite, tunnel: Tunnel): Option<Error> {
    if !key.Wrote? || key.path in disk then Some(KeyFileFailed)
    else match tunnel
      case NoPort => Some(LocalPortUnavailable)
      case NoSsh => Some(SshMissing)
      case NoProcess => Some(ProcessStartFailed)
      case Unhealthy(_) => Some(TunnelFailed)
      case Up(_, _) => None
  }

  /** A launch that fails leaves a key file cut short, one for which there was no port, and one that is stuck. */
  predicate LeavesKey(disk: set<Path>, key: KeyWrite, tunnel: Tunnel, stuck: set<Path>, p: Path) {
    key == CutShort(p) || (key == Wrote(p) && p !in disk && (tunnel.NoPort? || p in stuck))
  }

  /** The session of a new tunnel is selected and active; no other is. */
  predicate OneRuns(before: seq<Session>, after: seq<Session>, id: string, now: Millis) {
    && |after| == |before|
    && forall k :: 0 <= k < |before| ==>
         after[k] == if before[k].id == id
                     then before[k].(selected := true, runtimeStatus := RuntimeActive, status := RuntimeActive, credentialAvailable := true, updatedAt := now)
                     else before[k].(selected := false, runtimeStatus := if before[k].runtimeStatus == RuntimeActive then Stopped else before[k].runtimeStatus)
  }

  predicate Launches(m: State, t: State, session: Session, key: KeyWrite, tunnel: Tunnel, now: Millis) {
    && key.Wrote? && tunnel.Up?
    && t.profile == Some(Profile(session.id, session.details, tunnel.port, now, true, now)) && t.child == Some(tunnel.pid)
    && t.processes == m.processes + {tunnel.pid} && t.disk == m.disk + {key.path} && t.tempFiles == m.tempFiles + [key.path]
    && t.selected == Some(session.id) && OneRuns(m.sessions, t.sessions, session.id, now)
  }

  /** The launch left the state as it was, but for the key files on disk and the session, which is unhealthy. */
  ghost predicate LaunchFailed(m: State, t: State, id: string, key: KeyWrite, tunnel: Tunnel, stuck: set<Path>, now: Millis) {
    && t == m.(disk := t.disk, sessions := t.sessions) && OneChanges(m.sessions, t.sessions, id, To(RuntimeUnhealthy, now))
    && m.disk <= t.disk && forall p :: p in t.disk && p !in m.disk <==> p !in m.disk && LeavesKey(m.disk, key, tunnel, stuck, p)
  }

  lemma LaunchEffect(m: State, session: Session, key: KeyWrite, tunnel: Tunnel, stuck: set<Path>, now: Millis)
    ensures var (t, r) := Launch(m, session, key, tunnel, stuck, now);
            match WhyFails(m.disk, key, tunnel)
            case Some(error) =>
              && r == Err(error) && t == m.(disk := t.disk) && m.disk <= t.disk
              && forall p :: p in t.disk && p !in m.disk <==> p !in m.disk && LeavesKey(m.disk, key, tunnel, stuck, p)
            case None => r.Ok? && t.profile == Some(r.value) && Launches(m, t, session, key, tunnel, now)
  {
  }

  /** A start checks the id, the session and its credential, in that order, before it touches anything. Then it stops
      whatever runs, and launches the tunnel or leaves its session unhealthy. */
  lemma StartEffect(s: State, rawId: string, secret: Secret, key: KeyWrite, tunnel: Tunnel, stuck: set<Path>, now: Millis)
    requires Inv(s)
    ensures var (t, r) := Start(s, rawId, secret, key, tunnel, stuck, now);
            var id, m := Trim(rawId), StopRuntime(s, stuck, now);
            if !Given(rawId, id) then t == s && r == Err(InvalidId)
            else if forall k: nat :: !Is(s, k, id) then t == s && r == Err(NotFound)
            else if secret.Unreadable? then t == s && r == Err(CredentialUnavailable)
            else if !HasKey(secret) then t == s && r == Err(CredentialMissing)
            else match WhyFails(m.disk, key, tunnel)
              case Some(error) => r == Err(error) && LaunchFailed(m, t, id, key, tunnel, stuck, now)
              case None => r.Ok? && t.profile == Some(r.value) && exists k: nat :: Is(s, k, id) && Launches(m, t, s.sessions[k], key, tunnel, now)
  {
    hide Trim, OneChanges, StopRuntime, Find, Launch, Launches, LeavesKey, UniqueIds, ValidIds, SelectionHolds, TunnelHolds, ProfileHolds, WhyFails, Given, HasKey, NormalizeId;
    var id, m := Trim(rawId), StopRuntime(s, stuck, now);
    GivenIs(rawId, id);
    HasKeyIs(secret);
    FoundIs(s, id);
    StopInv(s, stuck, now);
    ReplacedOne(m.sessions, id, To(RuntimeUnhealthy, now));
    var k := Find(s.sessions, id);
    if k < |s.sessions| {
      assert Is(s, k, id);
      LaunchEffect(m, s.sessions[k], key, tunnel, stuck, now);
    }
  }

  // ----- the other commands -----

  /** Only the session changes, and is returned. */
  ghost predicate Changes(s: State, t: State, r: Result<Session>, id: string, change: Session -> Session) {
    && t == s.(sessions := t.sessions) && OneChanges(s.sessions, t.sessions, id, change)
    && exists k: nat :: Is(t, k, id) && r == Ok(t.sessions[k])
  }

  lemma ChangedOne(s: State, id: string, change: Session -> Session)
    requires UniqueIds(s.sessions) && (forall x :: change(x).id == x.id) && Find(s.sessions, id) < |s.sessions|
    ensures var x := change(s.sessions[Find(s.sessions, id)]);
            Changes(s, s.(sessions := Replace(s.sessions, x)), Ok(x), id, change)
  {
    hide UniqueIds, OneChanges;
    ReplacedOne(s.sessions, id, change);
    assert Is(s.(sessions := Replace(s.sessions, change(s.sessions[Find(s.sessions, id)]))), Find(s.sessions, id), id);
  }

  /** Looking for a session finds it where it is. */
  lemma Located(s: State, id: string)
    requires Inv(s)
    ensures UniqueIds(s.sessions) && ((forall k: nat :: !Is(s, k, id)) <==> Find(s.sessions, id) == |s.sessions|)
    ensures Find(s.sessions, id) < |s.sessions| ==> Is(s, Find(s.sessions, id), id)
  {
    hide UniqueIds, ValidIds, SelectionHolds, TunnelHolds, ProfileHolds, Find;
    FoundIs(s, id);
    var k := Find(s.sessions, id);
    assert k < |s.sessions| ==> Is(s, k, id);
  }

  /** A stop moves no session. */
  lemma HaltedFinds(s: State, id: string, other: string, stuck: set<Path>, now: Millis)
    requires Inv(s)
    ensures var m := StopIfActive(s, other, stuck, now);
            Inv(m) && Find(m.sessions, id) == Find(s.sessions, id) && |m.sessions| == |s.sessions| && forall k: nat :: Is(m, k, id) <==> Is(s, k, id)
  {
    hide Inv, StopIfActive;
    StopIfActiveInv(s, other, stuck, now);
  }

  /** The state after the tunnel of a session was stopped, if it is that session's. */
  predicate Halted(s: State, id: string, m: State, stuck: set<Path>, now: Millis) {
    if s.profile.Some? && s.profile.value.sessionId == id then Ends(s, m, stuck, ToStopped(now)) else m == s
  }

  lemma HaltedIs(s: State, id: string, stuck: set<Path>, now: Millis)
    requires Inv(s)
    ensures Halted(s, id, StopIfActive(s, id, stuck, now), stuck, now)
  {
    hide StopRuntime, Ends, Inv;
    StopEffect(s, stuck, now);
  }

  /** The session that a form makes, under the id it gives or a generated one. */
  predicate Made(form: Form, stored: bool, selected: bool, now: Millis, x: Session) {
    && form.details.Ok? && x.details == form.details.value
    && (if form.id.Some? && Trim(form.id.value) != [] then Given(form.id.value, x.id) else x.id == GeneratedId(form.base, now))
    && x.credentialAvailable == stored && x.status == (if stored then CredentialReady else MetadataOnly) && x.runtimeStatus == Stopped
    && x.updatedAt == now && x.selected == selected
  }

  /** Saving checks the fields and then the id; it stops the tunnel of a session it replaces, and puts a new one first. */
  lemma SaveEffect(s: State, form: Form, stored: bool, stuck: set<Path>, now: Millis)
    requires Inv(s)
    ensures var (t, r) := Save(s, form, stored, stuck, now);
            if form.details.Err? then t == s && r == Err(form.details.error)
            else if form.id.Some? && Trim(form.id.value) != [] && !Given(form.id.value, Trim(form.id.value)) then t == s && r == Err(InvalidId)
            else
              && r.Ok? && var x := r.value; var m := StopIfActive(s, x.id, stuck, now);
              && Made(form, stored, s.selected == Some(x.id), now, x) && t == m.(sessions := t.sessions)
              && if exists k: nat :: Is(s, k, x.id) then Overwrites(m.sessions, t.sessions, x) else t.sessions == [x] + m.sessions
  {
    hide Trim, Inv, UniqueIds, ValidIds, SelectionHolds, TunnelHolds, ProfileHolds, OneChanges, Given, NormalizeId,
         Find, Replace, Changes, StopIfActive, Has, NormalizeForm, Made, GeneratedId;
    FormIs(form, stored, now);
    var normal := NormalizeForm(form, stored, now);
    if normal.Ok? {
      var id := normal.value.id;
      var m := StopIfActive(s, id, stuck, now);
      MadeSelected(form, stored, now, normal.value, s.selected == Some(id));
      Located(s, id);
      HaltedFinds(s, id, id, stuck, now);
      Located(m, id);
      FindHas(m.sessions, id);
      if Find(m.sessions, id) < |m.sessions| {
        OverwritesIs(m.sessions, normal.value.(selected := s.selected == Some(id)));
      }
    }
  }

  lemma FormIs(form: Form, stored: bool, now: Millis)
    ensures var normal := NormalizeForm(form, stored, now);
            if form.details.Err? then normal == Err(form.details.error)
            else if form.id.Some? && Trim(form.id.value) != [] && !Given(form.id.value, Trim(form.id.value)) then normal == Err(InvalidId)
            else normal.Ok? && Made(form, stored, false, now, normal.value)
  {
    hide Trim, Given, NormalizeId, GeneratedId;
    if form.id.Some? {
      GivenIs(form.id.value, Trim(form.id.value));
    }
  }

  lemma MadeSelected(form: Form, stored: bool, now: Millis, x: Session, selected: bool)
    ensures Made(form, stored, false, now, x) ==> Made(form, stored, selected, now, x.(selected := selected))
  {
    hide Trim, Given, GeneratedId;
  }

  /** The session replaces the one of its id. */
  predicate Overwrites(before: seq<Session>, after: seq<Session>, x: Session) {
    |after| == |before| && forall k :: 0 <= k < |before| ==> after[k] == if before[k].id == x.id then x else before[k]
  }

  lemma OverwritesIs(sessions: seq<Session>, x: Session)
    requires UniqueIds(sessions) && Find(sessions, x.id) < |sessions|
    ensures Overwrites(sessions, Replace(sessions, x), x)
  {
  }

  /** Selecting marks the session, active if the tunnel is its, and resets every other one. */
  lemma SelectEffect(s: State, rawId: string)
    requires Inv(s)
    ensures var (t, r) := Select(s, rawId);
            var id := Trim(rawId);
            if !Given(rawId, id) then t == s && r == Err(InvalidId)
            else if forall k: nat :: !Is(s, k, id) then t == s && r == Err(NotFound)
            else
              && t == s.(selected := Some(id), sessions := t.sessions) && |t.sessions| == |s.sessions|
              && (exists k: nat :: Is(s, k, id) && r == Ok(t.sessions[k]))
              && forall k :: 0 <= k < |s.sessions| ==> Marked(s, s.sessions[k], id, t.sessions[k])
  {
    hide Trim, Inv, UniqueIds, ValidIds, SelectionHolds, TunnelHolds, ProfileHolds, OneChanges, Given, NormalizeId, Find, Replace, Changes, StopIfActive, Chosen, Marked;
    var id := Trim(rawId);
    GivenIs(rawId, id);
    Located(s, id);
    forall x
      ensures Marked(s, x, id, Chosen(x, id, IsActive(s, id)))
    {
      ChosenIs(s, x, id);
    }
  }

  lemma ChosenIs(s: State, x: Session, id: string)
    ensures Marked(s, x, id, Chosen(x, id, IsActive(s, id)))
  {
  }

  predicate Marked(s: State, x: Session, id: string, y: Session) {
    var runs := x.id == id && s.profile.Some? && s.profile.value.sessionId == id;
    && y.id == x.id && y.details == x.details && y.credentialAvailable == x.credentialAvailable && y.updatedAt == x.updatedAt
    && y.selected == (x.id == id) && y.status == (if runs then RuntimeActive else MetadataOnly) && y.runtimeStatus == if runs then RuntimeActive else Stopped
  }

  /** Deleting stops the session's tunnel before it looks for the session or its credential, and keeps that effect if it
      fails. */
  lemma DeleteEffect(s: State, rawId: string, deleted: bool, stuck: set<Path>, now: Millis)
    requires Inv(s)
    ensures var (t, r) := Delete(s, rawId, deleted, stuck, now);
            var id, m := Trim(rawId), StopIfActive(s, Trim(rawId), stuck, now);
            if !Given(rawId, id) then t == s && r == Err(InvalidId)
            else if forall k: nat :: !Is(s, k, id) then t == m && r == Err(NotFound)
            else exists k: nat :: Is(m, k, id) && Deleted(m, t, r, k, id, deleted)
  {
    hide Trim, Inv, UniqueIds, ValidIds, SelectionHolds, TunnelHolds, ProfileHolds, OneChanges, Given, NormalizeId, Find, Replace, Changes, StopIfActive, Without;
    var id, m := Trim(rawId), StopIfActive(s, Trim(rawId), stuck, now);
    GivenIs(rawId, id);
    Located(s, id);
    HaltedFinds(s, id, id, stuck, now);
    Located(m, id);
    var k := Find(m.sessions, id);
    if k < |m.sessions| {
      WithoutOne(m.sessions, id, k);
      assert Is(m, k, id);
    }
  }

  lemma {:induction false} WithoutOne(sessions: seq<Session>, id: string, k: nat)
    requires UniqueIds(sessions) && k < |sessions| && sessions[k].id == id
    ensures Without(sessions, id) == sessions[..k] + sessions[k + 1..]
  {
    if k > 0 {
      assert sessions[1..][k - 1] == sessions[k];
      WithoutOne(sessions[1..], id, k - 1);
    } else {
      WithoutNone(sessions[1..], id);
    }
  }

  lemma {:induction false} WithoutNone(sessions: seq<Session>, id: string)
    requires forall k :: 0 <= k < |sessions| ==> sessions[k].id != id
    ensures Without(sessions, id) == sessions
  {
    if sessions != [] {
      WithoutNone(sessions[1..], id);
    }
  }

  predicate Deleted(m: State, t: State, r: Result<seq<Session>>, k: nat, id: string, deleted: bool)
    requires k < |m.sessions|
  {
    if m.sessions[k].credentialAvailable && !deleted then t == m && r == Err(CredentialStoreFailed)
    else
      && r == Ok(t.sessions) && t.sessions == m.sessions[..k] + m.sessions[k + 1..]
      && t == m.(sessions := t.sessions, selected := if m.selected == Some(id) then None else m.selected)
  }

  function ToReady(now: Millis): Session -> Session {
    (x: Session) => x.(credentialAvailable := true, status := CredentialReady, updatedAt := now)
  }

  /** Importing reads the key and stores it before it looks for the session. */
  lemma ImportEffect(s: State, rawId: string, keyRead: bool, written: bool, now: Millis)
    requires Inv(s)
    ensures var (t, r) := Import(s, rawId, keyRead, written, now);
            var id := Trim(rawId);
            if !Given(rawId, id) then t == s && r == Err(InvalidId)
            else if !keyRead then t == s && r == Err(InvalidKeyFile)
            else if !written then t == s && r == Err(CredentialStoreFailed)
            else if forall k: nat :: !Is(s, k, id) then t == s && r == Err(NotFound)
            else
              Changes(s, t, r, id, ToReady(now))
  {
    hide Trim, Inv, UniqueIds, ValidIds, SelectionHolds, TunnelHolds, ProfileHolds, OneChanges, Given, NormalizeId, Find, Replace, Changes, StopIfActive;
    GivenIs(rawId, Trim(rawId));
    Located(s, Trim(rawId));
    if Find(s.sessions, Trim(rawId)) < |s.sessions| {
      ChangedOne(s, Trim(rawId), ToReady(now));
    }
  }

  function ToDeleted(now: Millis): Session -> Session {
    (x: Session) => x.(credentialAvailable := false, status := CredentialDeleted, runtimeStatus := Stopped, updatedAt := now)
  }

  /** Deleting a credential stops the session's tunnel first, and keeps that effect if it fails. */
  lemma DeleteCredentialEffect(s: State, rawId: string, deleted: bool, stuck: set<Path>, now: Millis)
    requires Inv(s)
    ensures var (t, r) := DeleteCredential(s, rawId, deleted, stuck, now);
            var id, m := Trim(rawId), StopIfActive(s, Trim(rawId), stuck, now);
            if !Given(rawId, id) then t == s && r == Err(InvalidId)
            else if !deleted then t == m && r == Err(CredentialStoreFailed)
            else if forall k: nat :: !Is(s, k, id) then t == m && r == Err(NotFound)
            else
              Changes(m, t, r, id, ToDeleted(now))
  {
    hide Trim, Inv, UniqueIds, ValidIds, SelectionHolds, TunnelHolds, ProfileHolds, OneChanges, Given, NormalizeId, Find, Replace, Changes, StopIfActive;
    var id, m := Trim(rawId), StopIfActive(s, Trim(rawId), stuck, now);
    GivenIs(rawId, id);
    Located(s, id);
    HaltedFinds(s, id, id, stuck, now);
    Located(m, id);
    if Find(m.sessions, id) < |m.sessions| {
      ChangedOne(m, id, ToDeleted(now));
    }
  }

  function ToChecked(available: bool, found: string, now: Millis): Session -> Session {
    (x: Session) => x.(credentialAvailable := available, status := Checked(found), updatedAt := now)
  }

  /** A session check records whether there is a usable key and what the check found: a missing credential if none can be
      read, or the key cannot be written to a file. A file cut short stays, and so does one that is stuck. */
  lemma CheckSessionEffect(s: State, rawId: string, secret: Secret, key: KeyWrite, outcome: string, stuck: set<Path>, now: Millis)
    requires Inv(s)
    ensures var (t, r) := CheckSession(s, rawId, secret, key, outcome, stuck, now);
            var id := Trim(rawId);
            if !Given(rawId, id) then t == s && r == Err(InvalidId)
            else if forall k: nat :: !Is(s, k, id) then t == s && r == Err(NotFound)
            else
              var noFile := HasKey(secret) && (!key.Wrote? || key.path in s.disk);
              var found := if secret.Unreadable? || noFile then "credential-missing" else outcome;
              && (forall p :: p in t.disk <==> p in s.disk || (HasKey(secret) && (key == CutShort(p) || (key == Wrote(p) && p in stuck))))
              && Changes(s.(disk := t.disk), t, r, id, ToChecked(HasKey(secret), found, now))
  {
    hide Trim, Inv, UniqueIds, ValidIds, SelectionHolds, TunnelHolds, ProfileHolds, OneChanges, Given, NormalizeId, Find, Replace, Changes, StopIfActive, HasKey, Usable;
    var id := Trim(rawId);
    GivenIs(rawId, id);
    HasKeyIs(secret);
    Located(s, id);
    if Find(s.sessions, id) < |s.sessions| {
      var t := CheckSession(s, rawId, secret, key, outcome, stuck, now).0;
      var noFile := HasKey(secret) && (!key.Wrote? || key.path in s.disk);
      ChangedOne(s.(disk := t.disk), id, ToChecked(HasKey(secret), if secret.Unreadable? || noFile then "credential-missing" else outcome, now));
    }
  }
}
