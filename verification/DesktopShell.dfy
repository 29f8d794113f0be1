/** The runtime state of the desktop shell as its commands change it in place, each command proved to do what its
    specification on values does. */
module DesktopShell {
  import opened Text
  import opened CodePoints
  import opened DesktopRuntime

  class CmRuntime {
    var sessions: seq<Session>
    var selected: Option<string>
    var child: Option<nat>
    var profile: Option<Profile>
    var tempFiles: seq<Path>
    var disk: set<Path>
    var processes: set<nat>

    ghost function Value(): State
      reads this
    {
      State(sessions, selected, child, profile, tempFiles, disk, processes)
    }

    constructor (environment: Option<Form>, stored: bool, files: set<Path>, now: Millis)
      ensures Value() == Initial(environment, stored, files, now)
    {
      sessions, selected, child, profile, tempFiles, disk, processes := [], None, None, None, [], files, {};
      if environment.Some? {
        var normal := NormalizeForm(environment.value, stored, now);
        if normal.Ok? {
          sessions, selected := [normal.value.(selected := true)], Some(normal.value.id);
        }
      }
    }

    method FindSession(id: string) returns (k: nat)
      ensures k == Find(sessions, id)
    {
      k := 0;
      while k < |sessions| && sessions[k].id != id
        invariant k <= |sessions|
        invariant forall j :: 0 <= j < k ==> sessions[j].id != id
      {
        k := k + 1;
      }
      var found := Find(sessions, id);
      assert found < |sessions| ==> sessions[found].id == id;
    }

    method CleanupRuntimeFiles(stuck: set<Path>)
      modifies this
      ensures Value() == Cleanup(old(Value()), stuck)
    {
      var k := 0;
      while k < |tempFiles|
        invariant k <= |tempFiles|
        invariant Value() == old(Value()).(disk := disk)
        invariant disk == old(disk) - (Paths(tempFiles[..k]) - stuck)
      {
        assert tempFiles[..k + 1] == tempFiles[..k] + [tempFiles[k]];
        if tempFiles[k] !in stuck {
          disk := disk - {tempFiles[k]};
        }
        k := k + 1;
      }
      assert tempFiles[..k] == tempFiles;
      tempFiles := [];
    }

    method MarkRuntimeStopped(id: string, now: Millis)
      modifies this
      ensures Value() == old(Value()).(sessions := MarkStopped(old(sessions), id, now))
    {
      var k := FindSession(id);
      if k < |sessions| {
        sessions := sessions[k := Stop(sessions[k], now)];
      }
    }

    method MarkRuntime(id: string, status: Status, now: Millis)
      modifies this
      ensures Value() == old(Value()).(sessions := MarkAs(old(sessions), id, status, now))
    {
      var k := FindSession(id);
      if k < |sessions| {
        sessions := sessions[k := Mark(sessions[k], status, now)];
      }
    }

    method ReapChild()
      modifies this
      ensures Value() == Reap(old(Value()))
    {
      if child.Some? {
        processes := processes - {child.value};
        child := None;
      }
    }

    method StopRuntimeState(stuck: set<Path>, now: Millis)
      modifies this
      ensures Value() == StopRuntime(old(Value()), stuck, now)
    {
      hide MarkStopped;
      var stopped := profile;
      profile := None;
      ReapChild();
      CleanupRuntimeFiles(stuck);
      if stopped.Some? {
        MarkRuntimeStopped(stopped.value.sessionId, now);
      }
    }

    method StopIfActiveSession(id: string, stuck: set<Path>, now: Millis)
      modifies this
      ensures Value() == StopIfActive(old(Value()), id, stuck, now)
    {
      if profile.Some? && profile.value.sessionId == id {
        StopRuntimeState(stuck, now);
      }
    }

    method CheckRuntimeState(exited: bool, healthy: bool, stuck: set<Path>, now: Millis) returns (r: Option<Profile>)
      modifies this
      ensures (Value(), r) == CheckRuntime(old(Value()), exited, healthy, stuck, now)
    {
      hide MarkAs;
      if profile.None? {
        return None;
      }
      var found := profile.value;
      if child.None? || exited {
        ReapChild();
        profile := None;
        CleanupRuntimeFiles(stuck);
        MarkRuntime(found.sessionId, RuntimeLost, now);
        return None;
      }
      profile := Some(found.(healthy := healthy, lastHealthAt := now));
      MarkRuntime(found.sessionId, if healthy then RuntimeActive else RuntimeUnhealthy, now);
      return profile;
    }

    method WriteKeyFile(key: KeyWrite) returns (file: Option<Path>)
      modifies this
      ensures var (d, f) := WriteKey(old(disk), key); Value() == old(Value()).(disk := d) && file == f
    {
      file := None;
      if key.Refused? || key.path in disk {
        return;
      }
      disk := disk + {key.path};
      if key.Wrote? {
        file := Some(key.path);
      }
    }

    method RemoveKeyFile(path: Path, stuck: set<Path>)
      modifies this
      ensures Value() == old(Value()).(disk := Remove(old(disk), path, stuck))
    {
      if path !in stuck {
        disk := disk - {path};
      }
    }

    method StartTunnel(session: Session, key: KeyWrite, tunnel: Tunnel, stuck: set<Path>, now: Millis) returns (r: Result<Profile>)
      modifies this
      ensures (Value(), r) == Launch(old(Value()), session, key, tunnel, stuck, now)
    {
      hide WriteKey, Remove;
      var file := WriteKeyFile(key);
      if file.None? {
        return Err(KeyFileFailed);
      }
      match tunnel
      case NoPort =>
        return Err(LocalPortUnavailable);
      case NoSsh =>
        RemoveKeyFile(file.value, stuck);
        return Err(SshMissing);
      case NoProcess =>
        RemoveKeyFile(file.value, stuck);
        return Err(ProcessStartFailed);
      case Unhealthy(pid) =>
        RemoveKeyFile(file.value, stuck);
        return Err(TunnelFailed);
      case Up(pid, port) =>
        var p := Profile(session.id, session.details, port, now, true, now);
        tempFiles := tempFiles + [file.value];
        child := Some(pid);
        processes := processes + {pid};
        profile := Some(p);
        selected := Some(session.id);
        ActivateSessions(session.id, now);
        return Ok(p);
    }

    method ActivateSessions(id: string, now: Millis)
      modifies this
      ensures Value() == old(Value()).(sessions := ActivateAll(old(sessions), id, now))
    {
      var k := 0;
      while k < |sessions|
        invariant k <= |sessions| == |old(sessions)|
        invariant Value() == old(Value()).(sessions := sessions)
        invariant forall j :: 0 <= j < k ==> sessions[j] == Activated(old(sessions)[j], id, now)
        invariant forall j :: k <= j < |sessions| ==> sessions[j] == old(sessions)[j]
      {
        var x := sessions[k].(selected := sessions[k].id == id);
        if x.id == id {
          x := x.(runtimeStatus := RuntimeActive, status := RuntimeActive, credentialAvailable := true, updatedAt := now);
        } else if x.runtimeStatus == RuntimeActive {
          x := x.(runtimeStatus := Stopped);
        }
        sessions := sessions[k := x];
        k := k + 1;
      }
    }

    method StartRuntimeCommand(rawId: string, secret: Secret, key: KeyWrite, tunnel: Tunnel, stuck: set<Path>, now: Millis) returns (r: Result<Profile>)
      modifies this
      ensures (Value(), r) == Start(old(Value()), rawId, secret, key, tunnel, stuck, now)
    {
      hide StopRuntime, Launch, MarkAs, Usable, Trim, Find;
      var id := NormalizeId(rawId);
      if id.Err? {
        return Err(id.error);
      }
      var k := FindSession(id.value);
      if k == |sessions| {
        return Err(NotFound);
      }
      var session := sessions[k];
      if secret.Unreadable? {
        return Err(CredentialUnavailable);
      }
      if !Usable(secret) {
        return Err(CredentialMissing);
      }
      StopRuntimeState(stuck, now);
      r := StartTunnel(session, key, tunnel, stuck, now);
      if r.Err? {
        MarkRuntime(id.value, RuntimeUnhealthy, now);
      }
    }

    method SaveSessionCommand(form: Form, stored: bool, stuck: set<Path>, now: Millis) returns (r: Result<Session>)
      modifies this
      ensures (Value(), r) == Save(old(Value()), form, stored, stuck, now)
    {
      hide StopIfActive, NormalizeForm;
      var normal := NormalizeForm(form, stored, now);
      if normal.Err? {
        return Err(normal.error);
      }
      var next := normal.value.(selected := selected == Some(normal.value.id));
      StopIfActiveSession(next.id, stuck, now);
      var k := FindSession(next.id);
      if k < |sessions| {
        sessions := sessions[k := next];
      } else {
        sessions := [next] + sessions;
      }
      return Ok(next);
    }

    method SelectSessionCommand(rawId: string) returns (r: Result<Session>)
      requires UniqueIds(sessions)
      modifies this
      ensures (Value(), r) == Select(old(Value()), rawId)
    {
      hide Trim, Find, ChooseAll, Chosen;
      var id := NormalizeId(rawId);
      if id.Err? {
        return Err(id.error);
      }
      var found := FindSession(id.value);
      if found == |sessions| {
        return Err(NotFound);
      }
      selected := Some(id.value);
      var active := profile.Some? && profile.value.sessionId == id.value;
      r := ChooseSessions(id.value, active, found);
    }

    /** The marking loop; it hands back the last session it selects. */
    method ChooseSessions(id: string, active: bool, ghost found: nat) returns (r: Result<Session>)
      requires UniqueIds(sessions) && found < |sessions| && sessions[found].id == id
      modifies this
      ensures Value() == old(Value()).(sessions := ChooseAll(old(sessions), id, active))
      ensures r == Ok(Chosen(old(sessions)[found], id, active))
    {
      r := Err(NotFound);
      var k := 0;
      while k < |sessions|
        invariant k <= |sessions| == |old(sessions)|
        invariant Value() == old(Value()).(sessions := sessions)
        invariant forall j :: 0 <= j < k ==> sessions[j] == Chosen(old(sessions)[j], id, active)
        invariant forall j :: k <= j < |sessions| ==> sessions[j] == old(sessions)[j]
        invariant r == if k <= found then Err(NotFound) else Ok(Chosen(old(sessions)[found], id, active))
      {
        var x := sessions[k].(selected := sessions[k].id == id);
        if x.selected && active {
          x := x.(status := RuntimeActive, runtimeStatus := RuntimeActive);
        } else {
          x := x.(status := MetadataOnly, runtimeStatus := Stopped);
        }
        if x.selected {
          r := Ok(x);
        }
        sessions := sessions[k := x];
        k := k + 1;
      }
    }

    method RetainOthers(id: string)
      modifies this
      ensures Value() == old(Value()).(sessions := Without(old(sessions), id))
    {
      var rest: seq<Session> := [];
      var k := 0;
      while k < |sessions|
        invariant k <= |sessions|
        invariant Without(sessions, id) == rest + Without(sessions[k..], id)
      {
        assert sessions[k..][1..] == sessions[k + 1..];
        if sessions[k].id != id {
          rest := rest + [sessions[k]];
        }
        k := k + 1;
      }
      sessions := rest;
    }

    method DeleteSessionCommand(rawId: string, deleted: bool, stuck: set<Path>, now: Millis) returns (r: Result<seq<Session>>)
      modifies this
      ensures (Value(), r) == Delete(old(Value()), rawId, deleted, stuck, now)
    {
      hide StopIfActive, Trim;
      var id := NormalizeId(rawId);
      if id.Err? {
        return Err(id.error);
      }
      StopIfActiveSession(id.value, stuck, now);
      var k := FindSession(id.value);
      if k == |sessions| {
        return Err(NotFound);
      }
      if sessions[k].credentialAvailable && !deleted {
        return Err(CredentialStoreFailed);
      }
      RetainOthers(id.value);
      if selected == Some(id.value) {
        selected := None;
      }
      return Ok(sessions);
    }

    method ImportKeyCommand(rawId: string, keyRead: bool, written: bool, now: Millis) returns (r: Result<Session>)
      modifies this
      ensures (Value(), r) == Import(old(Value()), rawId, keyRead, written, now)
    {
      hide Trim;
      var id := NormalizeId(rawId);
      if id.Err? {
        return Err(id.error);
      }
      if !keyRead {
        return Err(InvalidKeyFile);
      }
      if !written {
        return Err(CredentialStoreFailed);
      }
      var k := FindSession(id.value);
      if k == |sessions| {
        return Err(NotFound);
      }
      sessions := sessions[k := sessions[k].(credentialAvailable := true, status := CredentialReady, updatedAt := now)];
      return Ok(sessions[k]);
    }

    method DeleteCredentialCommand(rawId: string, deleted: bool, stuck: set<Path>, now: Millis) returns (r: Result<Session>)
      modifies this
      ensures (Value(), r) == DeleteCredential(old(Value()), rawId, deleted, stuck, now)
    {
      hide StopIfActive, Trim;
      var id := NormalizeId(rawId);
      if id.Err? {
        return Err(id.error);
      }
      StopIfActiveSession(id.value, stuck, now);
      if !deleted {
        return Err(CredentialStoreFailed);
      }
      var k := FindSession(id.value);
      if k == |sessions| {
        return Err(NotFound);
      }
      sessions := sessions[k := sessions[k].(credentialAvailable := false, status := CredentialDeleted, runtimeStatus := Stopped, updatedAt := now)];
      return Ok(sessions[k]);
    }

    method CheckSessionCommand(rawId: string, secret: Secret, key: KeyWrite, outcome: string, stuck: set<Path>, now: Millis) returns (r: Result<Session>)
      modifies this
      ensures (Value(), r) == CheckSession(old(Value()), rawId, secret, key, outcome, stuck, now)
    {
      hide Trim, WriteKey, Remove;
      var id := NormalizeId(rawId);
      if id.Err? {
        return Err(id.error);
      }
      var k := FindSession(id.value);
      if k == |sessions| {
        return Err(NotFound);
      }
      var found := outcome;
      if Usable(secret) {
        var file := WriteKeyFile(key);
        if file.Some? {
          RemoveKeyFile(file.value, stuck);
        } else {
          found := "credential-missing";
        }
      } else if secret.Unreadable? {
        found := "credential-missing";
      }
      sessions := sessions[k := sessions[k].(credentialAvailable := Usable(secret), status := Checked(found), updatedAt := now)];
      return Ok(sessions[k]);
    }
  }
}
