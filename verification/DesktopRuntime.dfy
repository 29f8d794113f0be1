/** The session and tunnel commands of the desktop shell. Commands are atomic; what the operating system, ssh and
    the credential store answer are parameters. */
module DesktopRuntime {
  import opened Text
  import opened CodePoints
  import Decimal
  import Names

  datatype Status =
    | MetadataOnly | CredentialReady | CredentialDeleted | Checked(outcome: string)
    | Stopped | RuntimeActive | RuntimeUnhealthy | RuntimeLost

  /** `details` stands for the fields that only the start command reads: name, host, user, ports. */
  datatype Session = Session(
    id: string, details: string, credentialAvailable: bool, status: Status, runtimeStatus: Status, updatedAt: nat, selected: bool)
  datatype Profile = Profile(sessionId: string, details: string, localPort: nat, startedAt: nat, healthy: bool, lastHealthAt: nat)

  type Path = string
  type Millis = n: nat | n < 0x1_0000_0000_0000_0000

  /** The five cells of the runtime state, then what is outside the program: the key files on disk and the
      tunnel processes that were spawned and not yet reaped. */
  datatype State = State(
    sessions: seq<Session>, selected: Option<string>, child: Option<nat>, profile: Option<Profile>, tempFiles: seq<Path>,
    disk: set<Path>, processes: set<nat>)

  datatype Error =
    | InvalidId | InvalidInput | NotFound | CredentialUnavailable | CredentialMissing | CredentialStoreFailed | InvalidKeyFile
    | KeyFileFailed | LocalPortUnavailable | SshMissing | ProcessStartFailed | TunnelFailed
  datatype Result<T> = Ok(value: T) | Err(error: Error)

  // ----- what the outside answers -----

  datatype Secret = Unreadable | NoSecret | Secret(text: string)
  /** Writing a key file: refused before there is one, cut short, or done. */
  datatype KeyWrite = Refused | CutShort(path: Path) | Wrote(path: Path)
  datatype Tunnel = NoPort | NoSsh | NoProcess | Unhealthy(pid: nat) | Up(pid: nat, port: nat)

  function Usable(secret: Secret): bool { secret.Secret? && Trim(secret.text) != "" }

  // ----- ids -----

  predicate IdChar(c: char) { 'a' <= c <= 'z' || 'A' <= c <= 'Z' || '0' <= c <= '9' || c == '-' || c == '_' || c == '.' }

  predicate ValidId(s: string) { 1 <= |s| <= 80 && forall k :: 0 <= k < |s| ==> IdChar(s[k]) }

  function NormalizeId(s: string): Result<string> {
    var id := Trim(s);
    if ValidId(id) then Ok(id) else Err(InvalidId)
  }

  // ----- finding and changing sessions -----

  predicate Has(sessions: seq<Session>, id: string) { exists k :: 0 <= k < |sessions| && sessions[k].id == id }

  /** The position of the first session with an id, or the length. */
  function Find(sessions: seq<Session>, id: string): (r: nat)
    ensures r <= |sessions| && (r < |sessions| ==> sessions[r].id == id)
    ensures forall k :: 0 <= k < r ==> sessions[k].id != id
  {
    if sessions == [] then 0
    else if sessions[0].id == id then 0
    else
      var rest := Find(sessions[1..], id);
      assert forall k :: 0 < k <= rest ==> sessions[k] == sessions[1..][k - 1] || k == |sessions|;
      1 + rest
  }

  function Stop(s: Session, now: Millis): Session {
    s.(runtimeStatus := Stopped, status := if s.credentialAvailable then CredentialReady else MetadataOnly, updatedAt := now)
  }
  function Mark(s: Session, status: Status, now: Millis): Session {
    s.(runtimeStatus := status, status := status, updatedAt := now)
  }

  /** The list with its first session of that id replaced; the same list if there is none. */
  function Replace(sessions: seq<Session>, s: Session): (r: seq<Session>)
    ensures |r| == |sessions|
  {
    var k := Find(sessions, s.id);
    if k < |sessions| then sessions[k := s] else sessions
  }

  function MarkStopped(sessions: seq<Session>, id: string, now: Millis): seq<Session> {
    var k := Find(sessions, id);
    if k < |sessions| then Replace(sessions, Stop(sessions[k], now)) else sessions
  }

  function MarkAs(sessions: seq<Session>, id: string, status: Status, now: Millis): seq<Session> {
    var k := Find(sessions, id);
    if k < |sessions| then Replace(sessions, Mark(sessions[k], status, now)) else sessions
  }

  // ----- stop and check -----

  function Paths(files: seq<Path>): set<Path> { set p | p in files }

  /** `stuck` are the files whose removal fails. */
  function Cleanup(s: State, stuck: set<Path>): State {
    s.(tempFiles := [], disk := s.disk - (Paths(s.tempFiles) - stuck))
  }

  function Reap(s: State): State {
    if s.child.Some? then s.(child := None, processes := s.processes - {s.child.value}) else s
  }

  function StopRuntime(s: State, stuck: set<Path>, now: Millis): State {
    var stopped := Cleanup(Reap(s.(profile := None)), stuck);
    if s.profile.Some? then stopped.(sessions := MarkStopped(s.sessions, s.profile.value.sessionId, now)) else stopped
  }

  predicate IsActive(s: State, id: string) { s.profile.Some? && s.profile.value.sessionId == id }

  function StopIfActive(s: State, id: string, stuck: set<Path>, now: Millis): State {
    if IsActive(s, id) then StopRuntime(s, stuck, now) else s
  }

  /** `exited` is what `try_wait` finds, an error counting as an exit. */
  function CheckRuntime(s: State, exited: bool, healthy: bool, stuck: set<Path>, now: Millis): (State, Option<Profile>) {
    if s.profile.None? then (s, None)
    else
      var id := s.profile.value.sessionId;
      if s.child.None? || exited then
        (Cleanup(Reap(s.(profile := None)), stuck).(sessions := MarkAs(s.sessions, id, RuntimeLost, now)), None)
      else
        var p := s.profile.value.(healthy := healthy, lastHealthAt := now);
        (s.(profile := Some(p), sessions := MarkAs(s.sessions, id, if healthy then RuntimeActive else RuntimeUnhealthy, now)), Some(p))
  }

  // ----- start -----

  /** The disk after writing a key file, and the file if it is complete. The name is new: creation fails if a file
      of that name exists. */
  function WriteKey(disk: set<Path>, key: KeyWrite): (set<Path>, Option<Path>) {
    match key
    case Refused => (disk, None)
    case CutShort(p) => (disk + {p}, None)
    case Wrote(p) => if p in disk then (disk, None) else (disk + {p}, Some(p))
  }

  function Remove(disk: set<Path>, p: Path, stuck: set<Path>): set<Path> { if p in stuck then disk else disk - {p} }

  function Activated(s: Session, id: string, now: Millis): Session {
    if s.id == id then s.(selected := true, runtimeStatus := RuntimeActive, status := RuntimeActive, credentialAvailable := true, updatedAt := now)
    else s.(selected := false, runtimeStatus := if s.runtimeStatus == RuntimeActive then Stopped else s.runtimeStatus)
  }

  function ActivateAll(sessions: seq<Session>, id: string, now: Millis): (r: seq<Session>)
    ensures |r| == |sessions|
  {
    seq(|sessions|, k requires 0 <= k < |sessions| => Activated(sessions[k], id, now))
  }

  function Launch(s: State, session: Session, key: KeyWrite, tunnel: Tunnel, stuck: set<Path>, now: Millis): (State, Result<Profile>) {
    var (disk, file) := WriteKey(s.disk, key);
    if file.None? then (s.(disk := disk), Err(KeyFileFailed))
    else
      match tunnel
      case NoPort => (s.(disk := disk), Err(LocalPortUnavailable))
      case NoSsh => (s.(disk := Remove(disk, file.value, stuck)), Err(SshMissing))
      case NoProcess => (s.(disk := Remove(disk, file.value, stuck)), Err(ProcessStartFailed))
      case Unhealthy(pid) => (s.(disk := Remove(disk, file.value, stuck)), Err(TunnelFailed))
      case Up(pid, port) =>
        var p := Profile(session.id, session.details, port, now, true, now);
        (s.(disk := disk, tempFiles := s.tempFiles + [file.value], child := Some(pid), processes := s.processes + {pid}, profile := Some(p),
            selected := Some(session.id), sessions := ActivateAll(s.sessions, session.id, now)),
         Ok(p))
  }

  function Start(s: State, rawId: string, secret: Secret, key: KeyWrite, tunnel: Tunnel, stuck: set<Path>, now: Millis): (State, Result<Profile>) {
    var id := NormalizeId(rawId);
    if id.Err? then (s, Err(id.error))
    else
      var k := Find(s.sessions, id.value);
      if k == |s.sessions| then (s, Err(NotFound))
      else if secret.Unreadable? then (s, Err(CredentialUnavailable))
      else if !Usable(secret) then (s, Err(CredentialMissing))
      else
        var session := s.sessions[k];
        var (s', r) := Launch(StopRuntime(s, stuck, now), session, key, tunnel, stuck, now);
        (if r.Err? then s'.(sessions := MarkAs(s'.sessions, id.value, RuntimeUnhealthy, now)) else s', r)
  }

  // ----- the other commands -----

  /** A session form: its id if one was given, its name, user and host joined, and whether its fields are in order. */
  datatype Form = Form(id: Option<string>, base: string, details: Result<string>)

  function SlugChar(c: char): char {
    if 'a' <= c <= 'z' || '0' <= c <= '9' then c else if 'A' <= c <= 'Z' then 'a' + (c - 'A') else '-'
  }

  function NonEmpty(parts: seq<string>): seq<string> {
    if parts == [] then [] else (if parts[0] == "" then [] else [parts[0]]) + NonEmpty(parts[1..])
  }

  function Slug(base: string): string {
    Names.Join(NonEmpty(Names.Split(seq(|base|, k requires 0 <= k < |base| => SlugChar(base[k])), '-')), '-')
  }

  function GeneratedId(base: string, now: Millis): string {
    var slug := Slug(base);
    (if |slug| > 52 then slug[..52] else slug) + "-" + Decimal.Itoa(now)
  }

  /** `stored` is what the credential store says about the id. */
  function NormalizeForm(form: Form, stored: bool, now: Millis): Result<Session> {
    if form.details.Err? then Err(form.details.error)
    else
      var id := if form.id.Some? && Trim(form.id.value) != "" then NormalizeId(form.id.value) else Ok(GeneratedId(form.base, now));
      if id.Err? then Err(id.error)
      else Ok(Session(id.value, form.details.value, stored, if stored then CredentialReady else MetadataOnly, Stopped, now, false))
  }

  function Save(s: State, form: Form, stored: bool, stuck: set<Path>, now: Millis): (State, Result<Session>) {
    var normal := NormalizeForm(form, stored, now);
    if normal.Err? then (s, Err(normal.error))
    else
      var next := normal.value.(selected := s.selected == Some(normal.value.id));
      var s' := StopIfActive(s, next.id, stuck, now);
      (s'.(sessions := if Has(s'.sessions, next.id) then Replace(s'.sessions, next) else [next] + s'.sessions), Ok(next))
  }

  function Chosen(s: Session, id: string, active: bool): Session {
    var status := if s.id == id && active then (RuntimeActive, RuntimeActive) else (MetadataOnly, Stopped);
    s.(selected := s.id == id, status := status.0, runtimeStatus := status.1)
  }

  function ChooseAll(sessions: seq<Session>, id: string, active: bool): (r: seq<Session>)
    ensures |r| == |sessions|
  {
    seq(|sessions|, k requires 0 <= k < |sessions| => Chosen(sessions[k], id, active))
  }

  function Select(s: State, rawId: string): (State, Result<Session>) {
    var id := NormalizeId(rawId);
    if id.Err? then (s, Err(id.error))
    else
      var k := Find(s.sessions, id.value);
      if k == |s.sessions| then (s, Err(NotFound))
      else
        (s.(selected := Some(id.value), sessions := ChooseAll(s.sessions, id.value, IsActive(s, id.value))),
         Ok(Chosen(s.sessions[k], id.value, IsActive(s, id.value))))
  }

  function Without(sessions: seq<Session>, id: string): seq<Session> {
    if sessions == [] then [] else (if sessions[0].id == id then [] else [sessions[0]]) + Without(sessions[1..], id)
  }

  function Delete(s: State, rawId: string, deleted: bool, stuck: set<Path>, now: Millis): (State, Result<seq<Session>>) {
    var id := NormalizeId(rawId);
    if id.Err? then (s, Err(id.error))
    else
      var s' := StopIfActive(s, id.value, stuck, now);
      var k := Find(s'.sessions, id.value);
      if k == |s'.sessions| then (s', Err(NotFound))
      else if s'.sessions[k].credentialAvailable && !deleted then (s', Err(CredentialStoreFailed))
      else
        var rest := Without(s'.sessions, id.value);
        (s'.(sessions := rest, selected := if s'.selected == Some(id.value) then None else s'.selected), Ok(rest))
  }

  function Import(s: State, rawId: string, keyRead: bool, written: bool, now: Millis): (State, Result<Session>) {
    var id := NormalizeId(rawId);
    if id.Err? then (s, Err(id.error))
    else if !keyRead then (s, Err(InvalidKeyFile))
    else if !written then (s, Err(CredentialStoreFailed))
    else
      var k := Find(s.sessions, id.value);
      if k == |s.sessions| then (s, Err(NotFound))
      else
        var next := s.sessions[k].(credentialAvailable := true, status := CredentialReady, updatedAt := now);
        (s.(sessions := Replace(s.sessions, next)), Ok(next))
  }

  function DeleteCredential(s: State, rawId: string, deleted: bool, stuck: set<Path>, now: Millis): (State, Result<Session>) {
    var id := NormalizeId(rawId);
    if id.Err? then (s, Err(id.error))
    else
      var s' := StopIfActive(s, id.value, stuck, now);
      if !deleted then (s', Err(CredentialStoreFailed))
      else
        var k := Find(s'.sessions, id.value);
        if k == |s'.sessions| then (s', Err(NotFound))
        else
          var next := s'.sessions[k].(credentialAvailable := false, status := CredentialDeleted, runtimeStatus := Stopped, updatedAt := now);
          (s'.(sessions := Replace(s'.sessions, next)), Ok(next))
  }

  /** With a key, the check writes a key file of its own and removes it. */
  function CheckSession(s: State, rawId: string, secret: Secret, key: KeyWrite, outcome: string, stuck: set<Path>, now: Millis): (State, Result<Session>) {
    var id := NormalizeId(rawId);
    if id.Err? then (s, Err(id.error))
    else
      var k := Find(s.sessions, id.value);
      if k == |s.sessions| then (s, Err(NotFound))
      else
        var (written, file) := if Usable(secret) then WriteKey(s.disk, key) else (s.disk, None);
        var disk := if file.Some? then Remove(written, file.value, stuck) else written;
        var found := if secret.Unreadable? || (Usable(secret) && file.None?) then "credential-missing" else outcome;
        var next := s.sessions[k].(credentialAvailable := Usable(secret), status := Checked(found), updatedAt := now);
        (s.(disk := disk, sessions := Replace(s.sessions, next)), Ok(next))
  }

  // ----- runs -----

  datatype Command =
    | StartRuntime(rawId: string, secret: Secret, key: KeyWrite, tunnel: Tunnel)
    | StopRuntimeNow
    | CheckRuntimeNow(exited: bool, healthy: bool)
    | SaveSession(form: Form, stored: bool)
    | SelectSession(rawId: string)
    | DeleteSession(rawId: string, deleted: bool)
    | ImportKey(rawId: string, keyRead: bool, written: bool)
    | DeleteKey(rawId: string, deleted: bool)
    | CheckOne(rawId: string, secret: Secret, key: KeyWrite, outcome: string)

  /** One command at a time of the clock, with the files that cannot be removed then. */
  datatype Event = Event(command: Command, stuck: set<Path>, now: Millis)

  function Step(s: State, e: Event): State {
    match e.command
    case StartRuntime(rawId, secret, key, tunnel) => Start(s, rawId, secret, key, tunnel, e.stuck, e.now).0
    case StopRuntimeNow => StopRuntime(s, e.stuck, e.now)
    case CheckRuntimeNow(exited, healthy) => CheckRuntime(s, exited, healthy, e.stuck, e.now).0
    case SaveSession(form, stored) => Save(s, form, stored, e.stuck, e.now).0
    case SelectSession(rawId) => Select(s, rawId).0
    case DeleteSession(rawId, deleted) => Delete(s, rawId, deleted, e.stuck, e.now).0
    case ImportKey(rawId, keyRead, written) => Import(s, rawId, keyRead, written, e.now).0
    case DeleteKey(rawId, deleted) => DeleteCredential(s, rawId, deleted, e.stuck, e.now).0
    case CheckOne(rawId, secret, key, outcome) => CheckSession(s, rawId, secret, key, outcome, e.stuck, e.now).0
  }

  function Run(s: State, events: seq<Event>): State {
    if events == [] then s else Step(Run(s, events[..|events| - 1]), events[|events| - 1])
  }

  /** The state after setup: no session, or the one the environment describes, selected. */
  function Initial(environment: Option<Form>, stored: bool, disk: set<Path>, now: Millis): State {
    var session := if environment.None? then Err(InvalidInput) else NormalizeForm(environment.value, stored, now);
    if session.Err? then State([], None, None, None, [], disk, {})
    else State([session.value.(selected := true)], Some(session.value.id), None, None, [], disk, {})
  }

  // ----- generated ids -----

  predicate IsSlugChar(c: char) { 'a' <= c <= 'z' || '0' <= c <= '9' || c == '-' }
  predicate AllSlug(s: string) { forall k :: 0 <= k < |s| ==> IsSlugChar(s[k]) }

  lemma {:induction false} JoinSlug(parts: seq<string>)
    ensures AllSlug(Names.Join(parts, '-')) <==> forall k :: 0 <= k < |parts| ==> AllSlug(parts[k])
  {
    if |parts| > 1 {
      JoinSlug(parts[1..]);
      AppendSlug(parts[0] + ['-'], Names.Join(parts[1..], '-'));
      AppendSlug(parts[0], ['-']);
      hide AllSlug;
      assert forall k :: 0 < k < |parts| ==> parts[k] == parts[1..][k - 1];
    } else if |parts| == 1 {
      hide AllSlug;
    }
  }

  lemma AppendSlug(s: string, t: string)
    ensures AllSlug(s + t) <==> AllSlug(s) && AllSlug(t)
  {
    hide IsSlugChar;
    var st := s + t;
    assert forall k :: 0 <= k < |s| ==> st[k] == s[k];
    forall k | 0 <= k < |t|
      ensures t[k] == st[|s| + k]
    {
    }
    if AllSlug(st) {
      forall k | 0 <= k < |t|
        ensures IsSlugChar(t[k])
      {
        assert IsSlugChar(st[|s| + k]);
      }
    }
  }

  lemma {:induction false} NonEmptySlug(parts: seq<string>)
    requires forall k :: 0 <= k < |parts| ==> AllSlug(parts[k])
    ensures forall k :: 0 <= k < |NonEmpty(parts)| ==> AllSlug(NonEmpty(parts)[k])
  {
    hide AllSlug;
    if parts != [] {
      NonEmptySlug(parts[1..]);
    }
  }

  /** A generated id passes the check that every id given by a caller must pass. */
  lemma GeneratedIdIsValid(base: string, now: Millis)
    ensures ValidId(GeneratedId(base, now))
  {
    var mapped := seq(|base|, k requires 0 <= k < |base| => SlugChar(base[k]));
    var parts := Names.Split(mapped, '-');
    assert AllSlug(mapped);
    JoinSlug(parts);
    NonEmptySlug(parts);
    JoinSlug(NonEmpty(parts));
    var slug, digits := Slug(base), Decimal.Itoa(now);
    assert AllSlug(slug);
    Decimal.ItoaLength(now, 20);
    TenToTheTwenty();
    assert forall k :: 0 <= k < |digits| ==> Decimal.IsDigit(digits[k]);
  }

  lemma TenToTheTwenty()
    ensures Decimal.Pow10(20) == 100_000_000_000_000_000_000
  {
    assert Decimal.Pow10(5) == 100_000;
    assert Decimal.Pow10(10) == 10_000_000_000;
    assert Decimal.Pow10(15) == 1_000_000_000_000_000;
  }

  // ----- the invariant -----

  predicate UniqueIds(sessions: seq<Session>) { forall j, k :: 0 <= j < k < |sessions| ==> sessions[j].id != sessions[k].id }
  predicate ValidIds(sessions: seq<Session>) { forall k :: 0 <= k < |sessions| ==> ValidId(sessions[k].id) }

  /** The flag of a session and the stored id say the same, and the stored id names a session. */
  predicate SelectionHolds(s: State) {
    && (forall k :: 0 <= k < |s.sessions| ==> (s.sessions[k].selected <==> s.selected == Some(s.sessions[k].id)))
    && (s.selected.Some? ==> Has(s.sessions, s.selected.value))
  }

  /** Profile, child, one registered key file and one live process come and go together. */
  predicate TunnelHolds(s: State) {
    && (s.profile.Some? <==> s.child.Some?)
    && |s.tempFiles| == (if s.profile.Some? then 1 else 0)
    && s.processes == if s.child.Some? then {s.child.value} else {}
  }

  predicate MarkedActive(x: Session) { x.runtimeStatus == RuntimeActive || x.status == RuntimeActive }

  /** The profile is for a stored session, and only that session is ever marked active. */
  predicate ProfileHolds(s: State) {
    && (s.profile.Some? ==> Has(s.sessions, s.profile.value.sessionId))
    && (forall k :: 0 <= k < |s.sessions| ==> MarkedActive(s.sessions[k]) ==> IsActive(s, s.sessions[k].id))
  }

  predicate Inv(s: State) {
    UniqueIds(s.sessions) && ValidIds(s.sessions) && SelectionHolds(s) && TunnelHolds(s) && ProfileHolds(s)
  }

  /** Changing one session in place, but not its id or flag, keeps ids and selection. */
  lemma ReplaceKeeps(s: State, k: nat, x: Session)
    requires UniqueIds(s.sessions) && k < |s.sessions| && x.id == s.sessions[k].id
    ensures Find(s.sessions, x.id) == k && Replace(s.sessions, x) == s.sessions[k := x]
    ensures UniqueIds(Replace(s.sessions, x))
    ensures ValidIds(s.sessions) ==> ValidIds(Replace(s.sessions, x))
    ensures forall id :: Has(Replace(s.sessions, x), id) <==> Has(s.sessions, id)
    ensures SelectionHolds(s) && x.selected == s.sessions[k].selected ==> SelectionHolds(s.(sessions := Replace(s.sessions, x)))
  {
    hide ValidId;
    var f := Find(s.sessions, x.id);
    assert f == k;
    var r := Replace(s.sessions, x);
    assert r == s.sessions[k := x];
    forall id
      ensures Has(r, id) <==> Has(s.sessions, id)
    {
      if Has(s.sessions, id) {
        var j :| 0 <= j < |s.sessions| && s.sessions[j].id == id;
        assert r[j].id == id;
      }
      if Has(r, id) {
        var j :| 0 <= j < |r| && r[j].id == id;
        assert s.sessions[j].id == id;
      }
    }
  }

  lemma FindHas(sessions: seq<Session>, id: string)
    ensures Find(sessions, id) < |sessions| <==> Has(sessions, id)
  {
  }

  predicate Idle(s: State) { s.profile.None? && s.child.None? && s.tempFiles == [] && s.processes == {} }

  /** What stopping leaves: nothing running, and the same sessions. */
  lemma StopInv(s: State, stuck: set<Path>, now: Millis)
    requires Inv(s)
    ensures var t := StopRuntime(s, stuck, now);
            && Inv(t) && Idle(t) && t.selected == s.selected
            && |t.sessions| == |s.sessions| && (forall k :: 0 <= k < |t.sessions| ==> t.sessions[k].id == s.sessions[k].id)
  {
    hide ValidId, Find, Has;
    var t := StopRuntime(s, stuck, now);
    if s.profile.Some? {
      var id := s.profile.value.sessionId;
      FindHas(s.sessions, id);
      var k := Find(s.sessions, id);
      ReplaceKeeps(s, k, Stop(s.sessions[k], now));
    }
  }

  /** Replacing one session by another of the same id and flag. */
  lemma ReplaceInv(s: State, k: nat, x: Session)
    requires Inv(s) && k < |s.sessions| && x.id == s.sessions[k].id && x.selected == s.sessions[k].selected
    requires MarkedActive(x) ==> IsActive(s, x.id)
    ensures Inv(s.(sessions := Replace(s.sessions, x)))
    ensures Find(s.sessions, x.id) == k
  {
    hide ValidId, Find, Has;
    ReplaceKeeps(s, k, x);
  }

  lemma ActivateKeeps(s: State, id: string, now: Millis)
    requires UniqueIds(s.sessions) && ValidIds(s.sessions)
    ensures var r := ActivateAll(s.sessions, id, now);
            && UniqueIds(r) && ValidIds(r)
            && (forall k :: 0 <= k < |r| ==> r[k].id == s.sessions[k].id)
            && (forall i :: Has(s.sessions, i) ==> Has(r, i))
  {
    hide ValidId;
    var r := ActivateAll(s.sessions, id, now);
    forall i | Has(s.sessions, i)
      ensures Has(r, i)
    {
      var k :| 0 <= k < |s.sessions| && s.sessions[k].id == i;
      assert r[k].id == i;
    }
  }

  /** A launch either sets everything up or leaves everything but the disk as it was. */
  lemma LaunchInv(s: State, session: Session, key: KeyWrite, tunnel: Tunnel, stuck: set<Path>, now: Millis)
    requires Inv(s) && Idle(s) && Has(s.sessions, session.id)
    ensures var (t, r) := Launch(s, session, key, tunnel, stuck, now);
            && Inv(t)
            && (r.Err? ==> t == s.(disk := t.disk))
            && (r.Ok? ==> t.profile == Some(r.value) && r.value.sessionId == session.id && t.selected == Some(session.id))
  {
    hide ValidId, Find, ValidIds, UniqueIds, Has;
    ActivateKeeps(s, session.id, now);
  }

  lemma StartInv(s: State, rawId: string, secret: Secret, key: KeyWrite, tunnel: Tunnel, stuck: set<Path>, now: Millis)
    requires Inv(s)
    ensures Inv(Start(s, rawId, secret, key, tunnel, stuck, now).0)
    ensures var (t, r) := Start(s, rawId, secret, key, tunnel, stuck, now); r.Err? ==> t == s || Idle(t)
  {
    hide Trim, ValidId, Find, Launch, StopRuntime, Usable, UniqueIds, ValidIds, SelectionHolds, TunnelHolds, ProfileHolds;
    var id := NormalizeId(rawId);
    if id.Ok? && Find(s.sessions, id.value) < |s.sessions| && Usable(secret) {
      StopInv(s, stuck, now);
      var stopped := StopRuntime(s, stuck, now);
      var k := Find(s.sessions, id.value);
      StartFrom(s, stopped, k, key, tunnel, stuck, now);
    }
  }

  lemma StartFrom(s: State, stopped: State, k: nat, key: KeyWrite, tunnel: Tunnel, stuck: set<Path>, now: Millis)
    requires Inv(stopped) && Idle(stopped) && k < |s.sessions| == |stopped.sessions| && s.sessions[k].id == stopped.sessions[k].id
    ensures var (t, r) := Launch(stopped, s.sessions[k], key, tunnel, stuck, now);
            Inv(t) && (r.Err? ==> var u := t.(sessions := MarkAs(t.sessions, s.sessions[k].id, RuntimeUnhealthy, now)); Inv(u) && Idle(u))
  {
    hide ValidId, Find, Launch, UniqueIds, ValidIds, SelectionHolds, ProfileHolds;
    var id := s.sessions[k].id;
    assert Has(stopped.sessions, id) by { assert stopped.sessions[k].id == id; }
    LaunchInv(stopped, s.sessions[k], key, tunnel, stuck, now);
    var (t, r) := Launch(stopped, s.sessions[k], key, tunnel, stuck, now);
    if r.Err? {
      ReplaceInv(t, k, Mark(t.sessions[k], RuntimeUnhealthy, now));
    }
  }

  lemma CheckInv(s: State, exited: bool, healthy: bool, stuck: set<Path>, now: Millis)
    requires Inv(s)
    ensures Inv(CheckRuntime(s, exited, healthy, stuck, now).0)
  {
    hide ValidId, Find, Has, UniqueIds, ValidIds;
    if s.profile.Some? {
      var id := s.profile.value.sessionId;
      FindHas(s.sessions, id);
      var k := Find(s.sessions, id);
      if exited {
        assert Inv(s.(sessions := Replace(s.sessions, Mark(s.sessions[k], RuntimeLost, now)))) by {
          ReplaceInv(s, k, Mark(s.sessions[k], RuntimeLost, now));
        }
        LostInv(s, k, stuck, now);
      } else {
        ReplaceInv(s, k, Mark(s.sessions[k], if healthy then RuntimeActive else RuntimeUnhealthy, now));
      }
    }
  }

  lemma LostInv(s: State, k: nat, stuck: set<Path>, now: Millis)
    requires Inv(s) && s.profile.Some? && k < |s.sessions| && s.sessions[k].id == s.profile.value.sessionId
    ensures var lost := Cleanup(Reap(s.(profile := None)), stuck).(sessions := MarkAs(s.sessions, s.profile.value.sessionId, RuntimeLost, now));
            Inv(lost) && Idle(lost)
  {
    hide ValidId, Find, Has;
    ReplaceKeeps(s, k, Mark(s.sessions[k], RuntimeLost, now));
  }

  lemma StopIfActiveInv(s: State, id: string, stuck: set<Path>, now: Millis)
    requires Inv(s)
    ensures var t := StopIfActive(s, id, stuck, now);
            && Inv(t) && !IsActive(t, id) && t.selected == s.selected
            && |t.sessions| == |s.sessions| && (forall k :: 0 <= k < |t.sessions| ==> t.sessions[k].id == s.sessions[k].id)
  {
    hide StopRuntime, UniqueIds, ValidIds, SelectionHolds, TunnelHolds, ProfileHolds;
    if IsActive(s, id) {
      StopInv(s, stuck, now);
    }
  }

  /** A session that is not running is stored over the old one of its id, or in front. */
  lemma StoreInv(s: State, x: Session)
    requires Inv(s) && !IsActive(s, x.id) && !MarkedActive(x) && ValidId(x.id) && x.selected == (s.selected == Some(x.id))
    ensures Inv(s.(sessions := if Has(s.sessions, x.id) then Replace(s.sessions, x) else [x] + s.sessions))
  {
    hide ValidId, Find;
    FindHas(s.sessions, x.id);
    if Has(s.sessions, x.id) {
      ReplaceInv(s, Find(s.sessions, x.id), x);
    } else {
      InsertInv(s, x);
    }
  }

  lemma InsertInv(s: State, x: Session)
    requires Inv(s) && !IsActive(s, x.id) && !MarkedActive(x) && ValidId(x.id) && x.selected == (s.selected == Some(x.id)) && !Has(s.sessions, x.id)
    ensures Inv(s.(sessions := [x] + s.sessions))
  {
    hide ValidId;
    var r := [x] + s.sessions;
    assert forall k :: 0 < k < |r| ==> r[k] == s.sessions[k - 1];
    forall id | Has(s.sessions, id)
      ensures Has(r, id)
    {
      var k :| 0 <= k < |s.sessions| && s.sessions[k].id == id;
      assert r[k + 1].id == id;
    }
  }

  lemma SaveInv(s: State, form: Form, stored: bool, stuck: set<Path>, now: Millis)
    requires Inv(s)
    ensures Inv(Save(s, form, stored, stuck, now).0)
  {
    hide Trim, GeneratedId, StopIfActive, ValidId, Find, Has, UniqueIds, ValidIds, SelectionHolds, TunnelHolds, ProfileHolds;
    GeneratedIdIsValid(form.base, now);
    var normal := NormalizeForm(form, stored, now);
    if normal.Ok? {
      var next := normal.value.(selected := s.selected == Some(normal.value.id));
      StopIfActiveInv(s, next.id, stuck, now);
      StoreInv(StopIfActive(s, next.id, stuck, now), next);
    }
  }

  lemma SelectInv(s: State, rawId: string)
    requires Inv(s)
    ensures Inv(Select(s, rawId).0)
  {
    hide Trim, ValidId, Find;
    var t := Select(s, rawId).0;
    forall id | Has(s.sessions, id)
      ensures Has(t.sessions, id)
    {
      var k :| 0 <= k < |s.sessions| && s.sessions[k].id == id;
      assert t.sessions[k].id == id;
    }
    var id := NormalizeId(rawId);
    if id.Ok? {
      FindHas(s.sessions, id.value);
    }
  }

  lemma {:induction false} WithoutIs(sessions: seq<Session>, id: string)
    requires UniqueIds(sessions)
    ensures var r := Without(sessions, id);
            && UniqueIds(r)
            && (forall x :: x in r <==> x in sessions && x.id != id)
  {
    if sessions != [] {
      assert sessions == [sessions[0]] + sessions[1..];
      assert UniqueIds(sessions[1..]);
      WithoutIs(sessions[1..], id);
      var rest := Without(sessions[1..], id);
      assert forall k :: 0 <= k < |rest| ==> rest[k] in sessions[1..];
    }
  }

  lemma WithoutInv(s: State, id: string)
    requires Inv(s) && !IsActive(s, id)
    ensures Inv(s.(sessions := Without(s.sessions, id), selected := if s.selected == Some(id) then None else s.selected))
  {
    hide ValidId, Has;
    var r := Without(s.sessions, id);
    WithoutIs(s.sessions, id);
    WithoutHas(s.sessions, id);
    hide Without, UniqueIds;
    assert forall k :: 0 <= k < |r| ==> r[k] in s.sessions;
  }

  lemma WithoutHas(sessions: seq<Session>, id: string)
    requires UniqueIds(sessions)
    ensures forall i :: i != id && Has(sessions, i) ==> Has(Without(sessions, id), i)
  {
    var r := Without(sessions, id);
    WithoutIs(sessions, id);
    forall i | i != id && Has(sessions, i)
      ensures Has(r, i)
    {
      var k :| 0 <= k < |sessions| && sessions[k].id == i;
      assert sessions[k] in r;
    }
  }

  lemma DeleteInv(s: State, rawId: string, deleted: bool, stuck: set<Path>, now: Millis)
    requires Inv(s)
    ensures Inv(Delete(s, rawId, deleted, stuck, now).0)
  {
    hide Trim, StopIfActive, ValidId, Find, Has, UniqueIds, ValidIds, SelectionHolds, TunnelHolds, ProfileHolds;
    var id := NormalizeId(rawId);
    if id.Ok? {
      StopIfActiveInv(s, id.value, stuck, now);
      WithoutInv(StopIfActive(s, id.value, stuck, now), id.value);
    }
  }

  /** A change of one found session that leaves id, flag and what is active. */
  lemma ChangeFound(s: State, id: string, x: Session)
    requires Inv(s) && Find(s.sessions, id) < |s.sessions|
    requires var y := s.sessions[Find(s.sessions, id)]; x.id == y.id && x.selected == y.selected && (MarkedActive(x) ==> MarkedActive(y))
    ensures Inv(s.(sessions := Replace(s.sessions, x)))
  {
    hide ValidId, Find, Has, UniqueIds, ValidIds, SelectionHolds, TunnelHolds;
    ReplaceInv(s, Find(s.sessions, id), x);
  }

  lemma ImportInv(s: State, rawId: string, keyRead: bool, written: bool, now: Millis)
    requires Inv(s)
    ensures Inv(Import(s, rawId, keyRead, written, now).0)
  {
    hide Trim, ValidId, Find, Inv;
    var id := NormalizeId(rawId);
    if id.Ok? && Find(s.sessions, id.value) < |s.sessions| {
      ChangeFound(s, id.value, s.sessions[Find(s.sessions, id.value)].(credentialAvailable := true, status := CredentialReady, updatedAt := now));
    }
  }

  lemma DeleteCredentialInv(s: State, rawId: string, deleted: bool, stuck: set<Path>, now: Millis)
    requires Inv(s)
    ensures Inv(DeleteCredential(s, rawId, deleted, stuck, now).0)
  {
    hide Trim, StopIfActive, ValidId, Find, Inv;
    var id := NormalizeId(rawId);
    if id.Ok? {
      StopIfActiveInv(s, id.value, stuck, now);
      var t := StopIfActive(s, id.value, stuck, now);
      var k := Find(t.sessions, id.value);
      if k < |t.sessions| {
        ChangeFound(t, id.value, t.sessions[k].(credentialAvailable := false, status := CredentialDeleted, runtimeStatus := Stopped, updatedAt := now));
      }
    }
  }

  lemma DiskInv(s: State, disk: set<Path>)
    requires Inv(s)
    ensures Inv(s.(disk := disk))
  {
    hide ValidId, Has;
  }

  lemma CheckSessionInv(s: State, rawId: string, secret: Secret, key: KeyWrite, outcome: string, stuck: set<Path>, now: Millis)
    requires Inv(s)
    ensures Inv(CheckSession(s, rawId, secret, key, outcome, stuck, now).0)
  {
    hide Trim, ValidId, Find, Inv, WriteKey, Usable;
    var t := CheckSession(s, rawId, secret, key, outcome, stuck, now).0;
    var id := NormalizeId(rawId);
    if id.Ok? && Find(s.sessions, id.value) < |s.sessions| {
      var k := Find(s.sessions, id.value);
      var x := CheckSession(s, rawId, secret, key, outcome, stuck, now).1.value;
      ChangeFound(s, id.value, x);
      DiskInv(s.(sessions := Replace(s.sessions, x)), t.disk);
    }
  }

  /** Every command keeps the invariant, whatever the outside answers. */
  lemma StepInv(s: State, e: Event)
    requires Inv(s)
    ensures Inv(Step(s, e))
  {
    hide Inv, Start, StopRuntime, CheckRuntime, Save, Select, Delete, Import, DeleteCredential, CheckSession;
    match e.command
    case StartRuntime(rawId, secret, key, tunnel) => StartInv(s, rawId, secret, key, tunnel, e.stuck, e.now);
    case StopRuntimeNow => StopInv(s, e.stuck, e.now);
    case CheckRuntimeNow(exited, healthy) => CheckInv(s, exited, healthy, e.stuck, e.now);
    case SaveSession(form, stored) => SaveInv(s, form, stored, e.stuck, e.now);
    case SelectSession(rawId) => SelectInv(s, rawId);
    case DeleteSession(rawId, deleted) => DeleteInv(s, rawId, deleted, e.stuck, e.now);
    case ImportKey(rawId, keyRead, written) => ImportInv(s, rawId, keyRead, written, e.now);
    case DeleteKey(rawId, deleted) => DeleteCredentialInv(s, rawId, deleted, e.stuck, e.now);
    case CheckOne(rawId, secret, key, outcome) => CheckSessionInv(s, rawId, secret, key, outcome, e.stuck, e.now);
  }

  lemma InitialInv(environment: Option<Form>, stored: bool, disk: set<Path>, now: Millis)
    ensures Inv(Initial(environment, stored, disk, now))
  {
    hide Trim, ValidId, GeneratedId;
    var t := Initial(environment, stored, disk, now);
    if environment.Some? {
      GeneratedIdIsValid(environment.value.base, now);
    }
    if t.sessions != [] {
      assert t.sessions[0].id == t.selected.value;
    }
  }

  /** The invariant holds after every sequence of commands. */
  lemma {:induction false} RunInv(environment: Option<Form>, stored: bool, disk: set<Path>, now: Millis, events: seq<Event>)
    ensures Inv(Run(Initial(environment, stored, disk, now), events))
  {
    hide Inv, Initial, Step;
    if events == [] {
      InitialInv(environment, stored, disk, now);
    } else {
      RunInv(environment, stored, disk, now, events[..|events| - 1]);
      StepInv(Run(Initial(environment, stored, disk, now), events[..|events| - 1]), events[|events| - 1]);
    }
  }

  // ----- single commands -----

  /** Whether a start gets as far as stopping the old runtime. */
  predicate Launches(s: State, rawId: string, secret: Secret) {
    var id := NormalizeId(rawId);
    id.Ok? && Find(s.sessions, id.value) < |s.sessions| && Usable(secret)
  }

  /** A start either is refused and changes nothing, or ends with a running tunnel for that session, or fails and
      leaves no child, no profile, no process and no registered file. */
  lemma StartIsAllOrNothing(s: State, rawId: string, secret: Secret, key: KeyWrite, tunnel: Tunnel, stuck: set<Path>, now: Millis)
    requires Inv(s)
    ensures var (t, r) := Start(s, rawId, secret, key, tunnel, stuck, now);
            && (!Launches(s, rawId, secret) ==> r.Err? && t == s)
            && (Launches(s, rawId, secret) && r.Err? ==> Idle(t))
            && (r.Ok? ==> Launches(s, rawId, secret) && tunnel.Up? && IsActive(t, Trim(rawId)) && t.child == Some(tunnel.pid) && t.selected == Some(Trim(rawId)))
  {
    hide Trim, ValidId, Find, Launch, StopRuntime, UniqueIds, ValidIds, SelectionHolds, TunnelHolds, ProfileHolds;
    if Launches(s, rawId, secret) {
      var id := NormalizeId(rawId);
      StopInv(s, stuck, now);
      var stopped := StopRuntime(s, stuck, now);
      var k := Find(s.sessions, id.value);
      StartFrom(s, stopped, k, key, tunnel, stuck, now);
      assert Has(stopped.sessions, id.value) by { assert stopped.sessions[k].id == id.value; }
      LaunchInv(stopped, s.sessions[k], key, tunnel, stuck, now);
      LaunchOk(stopped, s.sessions[k], key, tunnel, stuck, now);
      var (u, r) := Launch(stopped, s.sessions[k], key, tunnel, stuck, now);
      assert Start(s, rawId, secret, key, tunnel, stuck, now)
          == (if r.Err? then u.(sessions := MarkAs(u.sessions, id.value, RuntimeUnhealthy, now)) else u, r);
    }
  }

  lemma LaunchOk(s: State, session: Session, key: KeyWrite, tunnel: Tunnel, stuck: set<Path>, now: Millis)
    ensures var (t, r) := Launch(s, session, key, tunnel, stuck, now);
            r.Ok? ==> tunnel.Up? && t.child == Some(tunnel.pid)
  {
  }

  // ----- a running tunnel whose session is not marked active -----

  /** What a list says about the runtime of a session. */
  function StatusOf(sessions: seq<Session>, id: string): Option<Status> {
    var k := Find(sessions, id);
    if k < |sessions| then Some(sessions[k].runtimeStatus) else None
  }

  /** The converse of the last clause of the invariant fails in such a state: a tunnel runs, but its session does
      not say so. */
  predicate Hidden(s: State) { s.profile.Some? && StatusOf(s.sessions, s.profile.value.sessionId) != Some(RuntimeActive) }

  /** The events that hide a running tunnel: selecting another listed session, and a check that finds the tunnel
      alive but unhealthy. */
  predicate Hides(s: State, e: Event) {
    s.profile.Some? &&
    match e.command
    case SelectSession(rawId) => NormalizeId(rawId).Ok? && Has(s.sessions, NormalizeId(rawId).value) && !IsActive(s, NormalizeId(rawId).value)
    case CheckRuntimeNow(exited, healthy) => !exited && !healthy
    case _ => false
  }

  /** The events after which a tunnel that still runs shows: selecting its session, a healthy check, and a start that
      gets as far as launching. */
  predicate Shows(s: State, e: Event) {
    match e.command
    case SelectSession(rawId) => NormalizeId(rawId).Ok? && IsActive(s, NormalizeId(rawId).value)
    case CheckRuntimeNow(_, healthy) => healthy
    case StartRuntime(rawId, secret, _, _) => Launches(s, rawId, secret)
    case _ => false
  }

  lemma StatusOfMember(sessions: seq<Session>, k: nat)
    requires UniqueIds(sessions) && k < |sessions|
    ensures Find(sessions, sessions[k].id) == k && StatusOf(sessions, sessions[k].id) == Some(sessions[k].runtimeStatus)
  {
  }

  /** Changes to other sessions, and one to the session itself. */
  lemma StatusAfterReplace(sessions: seq<Session>, x: Session, id: string)
    requires UniqueIds(sessions) && Has(sessions, x.id)
    ensures StatusOf(Replace(sessions, x), id) == if x.id == id then Some(x.runtimeStatus) else StatusOf(sessions, id)
  {
    var k := Find(sessions, x.id);
    FindHas(sessions, x.id);
    var r := Replace(sessions, x);
    assert r == sessions[k := x];
    var j := Find(sessions, id);
    assert UniqueIds(r);
    if x.id == id {
      StatusOfMember(r, k);
    } else if j < |sessions| {
      assert r[j] == sessions[j];
      StatusOfMember(r, j);
    } else {
      assert forall i :: 0 <= i < |r| ==> r[i].id != id;
    }
  }

  lemma StatusAfterInsert(sessions: seq<Session>, x: Session, id: string)
    ensures StatusOf([x] + sessions, id) == if x.id == id then Some(x.runtimeStatus) else StatusOf(sessions, id)
  {
    assert ([x] + sessions)[1..] == sessions;
  }

  lemma {:induction false} StatusAfterWithout(sessions: seq<Session>, x: string, id: string)
    requires x != id
    ensures StatusOf(Without(sessions, x), id) == StatusOf(sessions, id)
  {
    hide StatusOf;
    if sessions != [] {
      var rest := Without(sessions[1..], x);
      StatusAfterWithout(sessions[1..], x, id);
      StatusAfterInsert(sessions[1..], sessions[0], id);
      StatusAfterInsert(rest, sessions[0], id);
      assert sessions == [sessions[0]] + sessions[1..];
      assert [] + rest == rest;
    }
  }

  lemma HiddenSelect(s: State, e: Event)
    requires Inv(s) && e.command.SelectSession? && s.profile.Some?
    ensures Hidden(Step(s, e)) <==> Hides(s, e) || (Hidden(s) && !Shows(s, e))
  {
    hide Trim, ValidId, Find, StatusOf, TunnelHolds, SelectionHolds;
    var id := s.profile.value.sessionId;
    var chosen := NormalizeId(e.command.rawId);
    if chosen.Ok? {
      FindHas(s.sessions, chosen.value);
      if Has(s.sessions, chosen.value) {
        SelectInv(s, e.command.rawId);
        var t := Step(s, e);
        FindHas(s.sessions, id);
        var k := Find(s.sessions, id);
        StatusOfMember(t.sessions, k);
      }
    }
  }

  lemma HiddenCheck(s: State, e: Event)
    requires Inv(s) && e.command.CheckRuntimeNow? && s.profile.Some? && Step(s, e).profile.Some?
    ensures Hidden(Step(s, e)) <==> Hides(s, e) || (Hidden(s) && !Shows(s, e))
  {
    hide ValidId, Find, StatusOf, SelectionHolds;
    var id := s.profile.value.sessionId;
    FindHas(s.sessions, id);
    var k := Find(s.sessions, id);
    StatusAfterReplace(s.sessions, Mark(s.sessions[k], if e.command.healthy then RuntimeActive else RuntimeUnhealthy, e.now), id);
  }

  lemma HiddenStart(s: State, e: Event)
    requires Inv(s) && e.command.StartRuntime? && Step(s, e).profile.Some?
    ensures Hidden(Step(s, e)) <==> Hidden(s) && !Shows(s, e)
    ensures s.profile.None? ==> Shows(s, e)
  {
    hide Trim, ValidId, Find, Launch, StopRuntime, StatusOf, Usable, UniqueIds, ValidIds, SelectionHolds, TunnelHolds, ProfileHolds;
    var c := e.command;
    StartIsAllOrNothing(s, c.rawId, c.secret, c.key, c.tunnel, e.stuck, e.now);
    if Shows(s, e) {
      StartedShows(s, e);
    }
  }

  lemma StartedShows(s: State, e: Event)
    requires Inv(s) && e.command.StartRuntime? && Launches(s, e.command.rawId, e.command.secret) && Step(s, e).profile.Some?
    requires var c := e.command; Start(s, c.rawId, c.secret, c.key, c.tunnel, e.stuck, e.now).1.Ok?
    ensures !Hidden(Step(s, e))
  {
    hide Trim, ValidId, Find, StopRuntime, StatusOf, WriteKey, UniqueIds, ValidIds, SelectionHolds, TunnelHolds, ProfileHolds;
    var c := e.command;
    StartInv(s, c.rawId, c.secret, c.key, c.tunnel, e.stuck, e.now);
    StopInv(s, e.stuck, e.now);
    var stopped := StopRuntime(s, e.stuck, e.now);
    var k := Find(s.sessions, NormalizeId(c.rawId).value);
    var t := Step(s, e);
    assert t.sessions == ActivateAll(stopped.sessions, s.sessions[k].id, e.now);
    ActivatedShows(t, stopped, k, s.sessions[k].id, e.now);
  }

  lemma ActivatedShows(t: State, s: State, k: nat, id: string, now: Millis)
    requires Inv(t) && k < |s.sessions| && s.sessions[k].id == id && t.sessions == ActivateAll(s.sessions, id, now)
    requires t.profile.Some? && t.profile.value.sessionId == id
    ensures !Hidden(t)
  {
    hide ValidId, Find, StatusOf, SelectionHolds, TunnelHolds, ProfileHolds;
    StatusOfMember(t.sessions, k);
  }

  lemma HiddenSave(s: State, e: Event)
    requires Inv(s) && e.command.SaveSession? && Step(s, e).profile.Some?
    ensures s.profile.Some? && (Hidden(Step(s, e)) <==> Hidden(s))
  {
    hide Trim, ValidId, GeneratedId, Find, StatusOf, SelectionHolds, TunnelHolds;
    var normal := NormalizeForm(e.command.form, e.command.stored, e.now);
    if normal.Ok? {
      var next := normal.value.(selected := s.selected == Some(normal.value.id));
      StopInv(s, e.stuck, e.now);
      var id := s.profile.value.sessionId;
      if Has(s.sessions, next.id) {
        StatusAfterReplace(s.sessions, next, id);
      } else {
        StatusAfterInsert(s.sessions, next, id);
      }
    }
  }

  /** A found session replaced by one with the same runtime status. */
  lemma SameStatus(s: State, id: string, x: Session, other: string)
    requires Inv(s) && Find(s.sessions, id) < |s.sessions| && x.id == s.sessions[Find(s.sessions, id)].id
    requires x.runtimeStatus == s.sessions[Find(s.sessions, id)].runtimeStatus || id != other
    ensures StatusOf(Replace(s.sessions, x), other) == StatusOf(s.sessions, other)
  {
    hide ValidId, Find, StatusOf, SelectionHolds, TunnelHolds, ProfileHolds;
    FindHas(s.sessions, id);
    StatusOfMember(s.sessions, Find(s.sessions, id));
    StatusAfterReplace(s.sessions, x, other);
  }

  lemma HiddenDelete(s: State, e: Event)
    requires Inv(s) && e.command.DeleteSession? && Step(s, e).profile.Some?
    ensures s.profile.Some? && (Hidden(Step(s, e)) <==> Hidden(s))
  {
    hide Trim, ValidId, Find, StatusOf, Without, StopRuntime, Inv;
    StopInv(s, e.stuck, e.now);
    var id := NormalizeId(e.command.rawId);
    if id.Ok? && !IsActive(s, id.value) {
      StatusAfterWithout(s.sessions, id.value, s.profile.value.sessionId);
    }
  }

  lemma HiddenImport(s: State, e: Event)
    requires Inv(s) && e.command.ImportKey? && s.profile.Some?
    ensures Step(s, e).profile.Some? && (Hidden(Step(s, e)) <==> Hidden(s))
  {
    hide Trim, ValidId, Find, StatusOf, Replace, Inv;
    var id := NormalizeId(e.command.rawId);
    if id.Ok? && Find(s.sessions, id.value) < |s.sessions| {
      SameStatus(s, id.value, s.sessions[Find(s.sessions, id.value)].(credentialAvailable := true, status := CredentialReady, updatedAt := e.now), s.profile.value.sessionId);
    }
  }

  lemma HiddenDeleteKey(s: State, e: Event)
    requires Inv(s) && e.command.DeleteKey? && Step(s, e).profile.Some?
    ensures s.profile.Some? && (Hidden(Step(s, e)) <==> Hidden(s))
  {
    hide Trim, ValidId, Find, StatusOf, Replace, StopRuntime, Inv;
    StopInv(s, e.stuck, e.now);
    var id := NormalizeId(e.command.rawId);
    if id.Ok? && !IsActive(s, id.value) && Find(s.sessions, id.value) < |s.sessions| {
      SameStatus(s, id.value, s.sessions[Find(s.sessions, id.value)].(credentialAvailable := false, status := CredentialDeleted, runtimeStatus := Stopped, updatedAt := e.now), s.profile.value.sessionId);
    }
  }

  lemma HiddenCheckOne(s: State, e: Event)
    requires Inv(s) && e.command.CheckOne? && s.profile.Some?
    ensures Step(s, e).profile.Some? && (Hidden(Step(s, e)) <==> Hidden(s))
  {
    hide Trim, ValidId, Find, StatusOf, Replace, WriteKey, Usable, Inv;
    var c := e.command;
    var id := NormalizeId(c.rawId);
    if id.Ok? && Find(s.sessions, id.value) < |s.sessions| {
      SameStatus(s, id.value, CheckSession(s, c.rawId, c.secret, c.key, c.outcome, e.stuck, e.now).1.value, s.profile.value.sessionId);
    }
  }

  /** Exactly when a tunnel that runs after a command is hidden: the command hides it, or it was hidden and the
      command does not show it. */
  lemma StepHides(s: State, e: Event)
    requires Inv(s) && Step(s, e).profile.Some?
    ensures Hidden(Step(s, e)) <==> Hides(s, e) || (Hidden(s) && !Shows(s, e))
    ensures s.profile.None? ==> Shows(s, e)
  {
    hide Inv, Hidden, NormalizeId, Start, StopRuntime, CheckRuntime, Save, Delete, Import, DeleteCredential, CheckSession, IsActive, Has;
    match e.command {
      case StartRuntime(_, _, _, _) => HiddenStart(s, e);
      case StopRuntimeNow => StopInv(s, e.stuck, e.now);
      case CheckRuntimeNow(_, _) =>
        ProfileStays(s, e);
        HiddenCheck(s, e);
      case SaveSession(_, _) => HiddenSave(s, e);
      case SelectSession(_) =>
        ProfileStays(s, e);
        HiddenSelect(s, e);
      case DeleteSession(_, _) => HiddenDelete(s, e);
      case ImportKey(_, _, _) =>
        ProfileStays(s, e);
        HiddenImport(s, e);
      case DeleteKey(_, _) => HiddenDeleteKey(s, e);
      case CheckOne(_, _, _, _) =>
        ProfileStays(s, e);
        HiddenCheckOne(s, e);
    }
  }

  lemma ProfileStays(s: State, e: Event)
    requires e.command.CheckRuntimeNow? || e.command.SelectSession? || e.command.ImportKey? || e.command.CheckOne?
    ensures s.profile.None? ==> Step(s, e).profile.None?
  {
    hide Trim, Find, ChooseAll, Replace, MarkAs, WriteKey;
  }

  predicate HidesAt(s: State, events: seq<Event>, k: int)
    requires 0 <= k < |events|
  {
    Hides(Run(s, events[..k]), events[k])
  }

  predicate ShowsAt(s: State, events: seq<Event>, k: int)
    requires 0 <= k < |events|
  {
    Shows(Run(s, events[..k]), events[k])
  }

  /** Event k hid a running tunnel, and none since then has shown it. */
  predicate HiddenBy(s: State, events: seq<Event>, k: int) {
    0 <= k < |events| && HidesAt(s, events, k) && forall j :: k < j < |events| ==> !ShowsAt(s, events, j)
  }

  /** Over any run: a running tunnel is hidden exactly if some event hid it and none since then has shown it. */
  lemma {:induction false} RunHides(environment: Option<Form>, stored: bool, disk: set<Path>, now: Millis, events: seq<Event>)
    requires Run(Initial(environment, stored, disk, now), events).profile.Some?
    ensures var s := Initial(environment, stored, disk, now);
            Hidden(Run(s, events)) <==>
            exists k :: HiddenBy(s, events, k)
  {
    hide Inv, Hidden, Hides, Shows, Step, NormalizeForm;
    var s := Initial(environment, stored, disk, now);
    if events != [] {
      var n := |events| - 1;
      var before := events[..n];
      RunInv(environment, stored, disk, now, before);
      StepHides(Run(s, before), events[n]);
      HiddenHasProfile(Run(s, before));
      HidesHasProfile(Run(s, before), events[n]);
      assert Run(s, events) == Step(Run(s, before), events[n]);
      hide Initial, Run, HiddenBy;
      if Run(s, before).profile.Some? {
        RunHides(environment, stored, disk, now, before);
      }
      HidingLonger(s, events);
    }
  }

  lemma HidesHasProfile(s: State, e: Event)
    ensures Hides(s, e) ==> s.profile.Some?
  {
  }

  lemma HiddenHasProfile(s: State)
    ensures Hidden(s) ==> s.profile.Some?
  {
  }

  lemma HidingLonger(s: State, events: seq<Event>)
    requires events != []
    ensures var n := |events| - 1;
            (exists k :: HiddenBy(s, events, k)) <==> HidesAt(s, events, n) || ((exists k :: HiddenBy(s, events[..n], k)) && !ShowsAt(s, events, n))
  {
    hide Run, Hides, Shows;
    var n := |events| - 1;
    var before := events[..n];
    assert forall k :: 0 <= k < n ==> before[..k] == events[..k] && before[k] == events[k];
    assert forall k :: 0 <= k < n ==> (HidesAt(s, before, k) <==> HidesAt(s, events, k)) && (ShowsAt(s, before, k) <==> ShowsAt(s, events, k));
    hide HidesAt, ShowsAt;
    assert HidesAt(s, events, n) ==> HiddenBy(s, events, n);
    forall k | HiddenBy(s, before, k) && !ShowsAt(s, events, n)
      ensures HiddenBy(s, events, k)
    {
    }
    forall k | HiddenBy(s, events, k) && k < n
      ensures HiddenBy(s, before, k) && !ShowsAt(s, events, n)
    {
    }
  }

  /** For example: choosing another session hides the tunnel until a check of a healthy tunnel. */
  lemma SelectingAnotherHidesTheTunnel(s: State, rawId: string, e: Event, check: Event)
    requires Inv(s) && s.profile.Some? && e.command == SelectSession(rawId) && Hides(s, e) && check.command == CheckRuntimeNow(false, true)
    ensures var t := Step(s, e);
            && t.profile == s.profile && t.child == s.child && Hidden(t)
            && Step(t, check).profile.Some? && !Hidden(Step(t, check))
  {
    hide Inv, Hidden, NormalizeId, ChooseAll, Has, Find;
    var t := Step(s, e);
    StepInv(s, e);
    StepHides(s, e);
    HasTunnel(t);
    StepHides(t, check);
  }

  lemma HasTunnel(s: State)
    requires Inv(s)
    ensures s.profile.Some? <==> s.child.Some?
  {
  }

  /** In a start, no session is marked active any more when the sessions are marked, so that of the other sessions
      only the flag changes: the branch that stops them is never taken. */
  lemma StartStopsNobodyElse(s: State, id: string, stuck: set<Path>, now: Millis)
    requires Inv(s)
    ensures var t := StopRuntime(s, stuck, now);
            forall k :: 0 <= k < |t.sessions| && t.sessions[k].id != id ==> ActivateAll(t.sessions, id, now)[k] == t.sessions[k].(selected := false)
  {
    hide StopRuntime, ValidIds, UniqueIds, SelectionHolds, TunnelHolds;
    StopInv(s, stuck, now);
  }

  // ----- key files on disk -----

  /** Key files that no later command will remove. */
  function Leaked(s: State): set<Path> { s.disk - Paths(s.tempFiles) }

  predicate DiskHolds(s: State) { Paths(s.tempFiles) <= s.disk }

  function StopLeak(s: State, stuck: set<Path>): set<Path> { Paths(s.tempFiles) * stuck }

  function KeyLeak(disk: set<Path>, key: KeyWrite, removed: bool, stuck: set<Path>): set<Path> {
    match key
    case Refused => {}
    case CutShort(p) => if p in disk then {} else {p}
    case Wrote(p) => if p in disk || (removed && p !in stuck) then {} else {p}
  }

  /** The key files that a command leaves behind: those it fails to remove, one that was cut short in writing, and
      one written by a start that then finds no port. */
  function LeakedBy(s: State, e: Event): set<Path> {
    match e.command
    case StartRuntime(rawId, secret, key, tunnel) =>
      if !Launches(s, rawId, secret) then {}
      else StopLeak(s, e.stuck) + if key.Wrote? && tunnel.Up? then {} else KeyLeak(StopRuntime(s, e.stuck, e.now).disk, key, !tunnel.NoPort?, e.stuck)
    case StopRuntimeNow => StopLeak(s, e.stuck)
    case CheckRuntimeNow(exited, _) => if s.profile.Some? && (s.child.None? || exited) then StopLeak(s, e.stuck) else {}
    case SaveSession(form, stored) =>
      var normal := NormalizeForm(form, stored, e.now);
      if normal.Ok? && IsActive(s, normal.value.id) then StopLeak(s, e.stuck) else {}
    case DeleteSession(rawId, _) => if NormalizeId(rawId).Ok? && IsActive(s, NormalizeId(rawId).value) then StopLeak(s, e.stuck) else {}
    case DeleteKey(rawId, _) => if NormalizeId(rawId).Ok? && IsActive(s, NormalizeId(rawId).value) then StopLeak(s, e.stuck) else {}
    case CheckOne(rawId, secret, key, _) => if Launches(s, rawId, secret) then KeyLeak(s.disk, key, true, e.stuck) else {}
    case SelectSession(_) => {}
    case ImportKey(_, _, _) => {}
  }

  lemma StopLeaks(s: State, stuck: set<Path>, now: Millis)
    requires DiskHolds(s)
    ensures var t := StopRuntime(s, stuck, now);
            && DiskHolds(t) && t.tempFiles == [] && Leaked(t) == Leaked(s) + StopLeak(s, stuck)
  {
    hide MarkStopped;
  }

  lemma LaunchLeaks(s: State, session: Session, key: KeyWrite, tunnel: Tunnel, stuck: set<Path>, now: Millis)
    requires DiskHolds(s) && s.tempFiles == []
    ensures var t := Launch(s, session, key, tunnel, stuck, now).0;
            && DiskHolds(t)
            && Leaked(t) == Leaked(s) + if key.Wrote? && tunnel.Up? then {} else KeyLeak(s.disk, key, !tunnel.NoPort?, stuck)
  {
    hide ActivateAll;
    var (t, r) := Launch(s, session, key, tunnel, stuck, now);
    if r.Ok? {
      assert t.tempFiles == [key.path];
    }
  }

  /** The key files left behind grow by exactly those; in particular they never shrink. */
  lemma StepLeaks(s: State, e: Event)
    requires Inv(s) && DiskHolds(s)
    ensures var t := Step(s, e); DiskHolds(t) && Leaked(t) == Leaked(s) + LeakedBy(s, e)
  {
    hide Inv, Trim, ValidId, GeneratedId, Find, Replace, MarkAs, MarkStopped, StopRuntime, Launch, Without, ChooseAll, Has;
    StopLeaks(s, e.stuck, e.now);
    match e.command
    case StartRuntime(rawId, secret, key, tunnel) =>
      if Launches(s, rawId, secret) {
        var k := Find(s.sessions, NormalizeId(rawId).value);
        LaunchLeaks(StopRuntime(s, e.stuck, e.now), s.sessions[k], key, tunnel, e.stuck, e.now);
        var (u, r) := Launch(StopRuntime(s, e.stuck, e.now), s.sessions[k], key, tunnel, e.stuck, e.now);
        assert Step(s, e) == if r.Err? then u.(sessions := MarkAs(u.sessions, NormalizeId(rawId).value, RuntimeUnhealthy, e.now)) else u;
      }
    case _ =>
  }

  function LeakedOver(s: State, events: seq<Event>): set<Path> {
    if events == [] then {}
    else LeakedOver(s, events[..|events| - 1]) + LeakedBy(Run(s, events[..|events| - 1]), events[|events| - 1])
  }

  lemma {:induction false} LeaksFrom(s: State, events: seq<Event>)
    requires Inv(s) && DiskHolds(s)
    ensures var t := Run(s, events); Inv(t) && DiskHolds(t) && Leaked(t) == Leaked(s) + LeakedOver(s, events)
  {
    hide Inv, Step, LeakedBy, DiskHolds, Leaked;
    if events != [] {
      var before := events[..|events| - 1];
      LeaksFrom(s, before);
      StepInv(Run(s, before), events[|events| - 1]);
      StepLeaks(Run(s, before), events[|events| - 1]);
    }
  }

  /** Over any run of commands, the key files on disk are the registered one, those that were there before and
      those that commands leaked. */
  lemma RunLeaks(environment: Option<Form>, stored: bool, disk: set<Path>, now: Millis, events: seq<Event>)
    ensures var s := Initial(environment, stored, disk, now);
            var t := Run(s, events);
            t.disk == Paths(t.tempFiles) + disk + LeakedOver(s, events)
  {
    hide Inv, Step, LeakedBy, NormalizeForm, LeakedOver, Run;
    InitialInv(environment, stored, disk, now);
    var s := Initial(environment, stored, disk, now);
    assert Paths([]) == {};
    LeaksFrom(s, events);
    assert Leaked(s) == disk;
    var t := Run(s, events);
    assert t.disk == Paths(t.tempFiles) + Leaked(t);
  }

  /** A start that finds no port leaves its key file on disk, and no later command removes it. */
  lemma NoPortLeavesTheKey(s: State, rawId: string, secret: Secret, path: Path, e: Event, later: seq<Event>)
    requires Inv(s) && DiskHolds(s) && Launches(s, rawId, secret) && path !in s.disk
    requires e.command == StartRuntime(rawId, secret, Wrote(path), NoPort)
    ensures path in Leaked(Run(Step(s, e), later))
  {
    hide Inv, DiskHolds, Step, StopRuntime, Run, LeakedOver, Launches;
    StepInv(s, e);
    StepLeaks(s, e);
    StopDisk(s, e.stuck, e.now);
    LeaksFrom(Step(s, e), later);
  }

  lemma StopDisk(s: State, stuck: set<Path>, now: Millis)
    ensures StopRuntime(s, stuck, now).disk <= s.disk
  {
  }
}
