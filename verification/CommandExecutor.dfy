/**
 One command from payload to statuses. C++ exceptions are modelled by results: a member that
 returns `threw` stands for one that throws in that case.
 */
module CommandExecutor {
  import opened Options
  import UM = UpdateManager

  /** A field as json::value(key, default) finds it: the wrong type throws, an absent one is the default. */
  datatype Field = Absent | WrongType | Present(value: string)

  /** The payload member of a command; a missing one reads as null, which is not an object. */
  datatype Payload =
    | NotObject(text: string)
    | Fields(text: string, command: Field, url: Field, sha256: Field, version: Field)

  datatype Command =
    | Malformed
    | NoFields
    | Command(id: Field, kind: Field, timeout: Field, payload: Payload)

  datatype Status = Acknowledged | Executing | Success | Failure

  datatype Effect =
    | RanShell(command: string)
    | RanRestart
    | TriggeredCollection
    | TriggeredScan
    | StartedUpdate(url: string, sha256: string)

  /** Which of the executor's collaborators are there. */
  datatype Services = Services(updates: bool, collector: bool, scanner: bool)

  function Default(f: Field): string {
    if f.Present? then f.value else ""
  }

  predicate Readable(f: Field) {
    !f.WrongType?
  }

  /** The command line handleShell() runs: the text itself when the payload is no object with a readable command. */
  function ShellCommand(p: Payload): string {
    if p.NotObject? || p.command.WrongType? then p.text else Default(p.command)
  }

  /** The update a payload asks for: every field readable, and both address and digest given. */
  predicate AsksForUpdate(p: Payload) {
    && p.Fields? && Readable(p.url) && Readable(p.sha256) && Readable(p.version)
    && Default(p.url) != "" && Default(p.sha256) != ""
  }

  /** A command with an identifier to report under. */
  predicate HasId(c: Command) {
    c.Command? && c.id.Present? && c.id.value != ""
  }

  predicate Extractable(c: Command) {
    c.Command? && Readable(c.id) && Readable(c.kind) && Readable(c.timeout)
  }

  predicate Terminal(s: Status) {
    s == Success || s == Failure
  }

  // ---------------------------------------------------------------- the promised statuses

  /** What a handler publishes, and how far it gets when it throws. */
  predicate Handled(s: seq<Status>, threw: bool) {
    if threw then s == [] || s == [Executing]
    else s == [Failure] || s == [Executing, Success] || s == [Executing, Failure]
  }

  /** Acknowledged, optionally executing, then one terminal status; or a lone failure. */
  predicate Lifecycle(s: seq<Status>) {
    s == [Failure] || s == [Acknowledged, Failure]
    || s == [Acknowledged, Executing, Success] || s == [Acknowledged, Executing, Failure]
  }

  /** One terminal status, and it comes last. */
  lemma LifecycleEndsOnce(s: seq<Status>, i: nat)
    requires Lifecycle(s) && i < |s|
    ensures Terminal(s[i]) <==> i == |s| - 1
    ensures s[i] == Acknowledged ==> i == 0
  {
  }

  /** Reading the update fields throws. */
  predicate UpdateFieldsThrow(p: Payload) {
    p.NotObject? || p.url.WrongType? || p.sha256.WrongType? || p.version.WrongType?
  }

  function Requested(p: Payload): Effect
    requires AsksForUpdate(p)
  {
    StartedUpdate(Default(p.url), Default(p.sha256))
  }

  /** A handler that throws is followed by the failure its caller reports. */
  function Closed(s: seq<Status>, threw: bool): seq<Status> {
    if threw then s + [Failure] else s
  }

  lemma ClosesLifecycle(s: seq<Status>, threw: bool)
    requires if s == [] then threw else s[0] == Acknowledged && Handled(s[1..], threw)
    ensures Lifecycle(Closed(s, threw))
    ensures Closed(s, threw) == [Failure] <==> s == []
    ensures Success in s ==> !threw
    ensures Executing in s + [Failure] <==> Executing in s
    ensures Success in s + [Failure] <==> Success in s
  {
  }

  function If(there: bool, effect: Effect): seq<Effect> {
    if there then [effect] else []
  }

  /** The statuses that follow the acknowledgement when nothing throws; `zero`: processes exit with 0. */
  function Expected(kind: string, p: Payload, services: Services, zero: bool): seq<Status> {
    var ended := [Executing, if zero then Success else Failure];
    if kind == "shell" && ShellCommand(p) != "" then ended
    else if kind == "restart_service" then ended
    else if kind == "collect_now" || kind == "scan_network" || kind == "get_info" then [Executing, Success]
    else if kind == "agent_update" && services.updates && AsksForUpdate(p) then []
    else [Failure]
  }

  /** What a command does to the host, if it gets to work. */
  function Effects(kind: string, p: Payload, services: Services): seq<Effect> {
    if kind == "shell" then If(ShellCommand(p) != "", RanShell(ShellCommand(p)))
    else if kind == "restart_service" then [RanRestart]
    else if kind == "collect_now" then If(services.collector, TriggeredCollection)
    else if kind == "scan_network" then If(services.scanner, TriggeredScan)
    else if kind == "agent_update" && services.updates && AsksForUpdate(p) then [Requested(p)]
    else []
  }

  function CommandStatuses(c: Command, services: Services, zero: bool): seq<Status>
    requires Extractable(c)
  {
    [Acknowledged] + Expected(Default(c.kind), c.payload, services, zero)
  }

  function CommandEffects(c: Command, services: Services): seq<Effect>
    requires Extractable(c)
  {
    Effects(Default(c.kind), c.payload, services)
  }

  // ---------------------------------------------------------------- the same, command by command

  predicate IsA(c: Command, kind: string) {
    c.Command? && c.kind == Present(kind)
  }

  /** The command line of a shell command: its readable command field, or else the text of its payload. */
  predicate Line(p: Payload, line: string) {
    if p.Fields? && p.command != WrongType then p.command == Present(line) else p.text == line
  }

  predicate GivesLine(p: Payload) {
    if p.Fields? && p.command != WrongType then p.command.Present? && p.command.value != "" else p.text != ""
  }

  predicate StartsProcess(c: Command) {
    IsA(c, "restart_service") || (IsA(c, "shell") && GivesLine(c.payload))
  }

  predicate OnlyReports(c: Command) {
    IsA(c, "collect_now") || IsA(c, "scan_network") || IsA(c, "get_info")
  }

  /** An update in readable fields, with an address and a digest. */
  predicate WantsUpdate(c: Command) {
    && IsA(c, "agent_update") && c.payload.Fields? && c.payload.version != WrongType
    && c.payload.url.Present? && c.payload.url.value != ""
    && c.payload.sha256.Present? && c.payload.sha256.value != ""
  }

  predicate Orders(c: Command, url: string, sha256: string) {
    WantsUpdate(c) && c.payload.url.value == url && c.payload.sha256.value == sha256
  }

  /** What a command has done to the host: what it asks for, once, if it got to work; nothing else. */
  ghost predicate Did(c: Command, services: Services, working: bool, started: bool, did: seq<Effect>) {
    && |did| <= 1
    && (TriggeredCollection in did <==> working && IsA(c, "collect_now") && services.collector)
    && (TriggeredScan in did <==> working && IsA(c, "scan_network") && services.scanner)
    && (RanRestart in did <==> working && IsA(c, "restart_service"))
    && (forall x :: RanShell(x) in did <==> working && IsA(c, "shell") && x != "" && Line(c.payload, x))
    && (forall u, h :: StartedUpdate(u, h) in did <==> started && services.updates && Orders(c, u, h))
  }

  lemma DidAsAsked(c: Command, services: Services, working: bool, started: bool)
    requires Extractable(c)
    requires if IsA(c, "agent_update") then !working else !started
    ensures Did(c, services, working, started, if working || started then CommandEffects(c, services) else [])
  {
  }

  lemma DidNothing(c: Command, services: Services)
    ensures Did(c, services, false, false, [])
  {
  }

  lemma StatusesAsAsked(c: Command, services: Services, zero: bool)
    requires Extractable(c)
    ensures var s := CommandStatuses(c, services, zero);
      && (Executing in s <==> OnlyReports(c) || StartsProcess(c))
      && (Success in s <==> OnlyReports(c) || (zero && StartsProcess(c)))
  {
  }

  lemma Consequences(c: Command, services: Services, zero: bool, started: bool, s: seq<Status>, did: seq<Effect>)
    requires if started || Executing in s then Extractable(c) && did == CommandEffects(c, services) else did == []
    requires if IsA(c, "agent_update") then Executing !in s else !started
    requires Success in s ==> Extractable(c) && s == CommandStatuses(c, services, zero)
    ensures Did(c, services, Executing in s, started, did)
    ensures Success in s ==> OnlyReports(c) || (zero && StartsProcess(c))
  {
    if c.Command? && Extractable(c) {
      DidAsAsked(c, services, Executing in s, started);
      StatusesAsAsked(c, services, zero);
    } else {
      DidNothing(c, services);
    }
  }

  class CommandExecutor {
    /** Does the n-th risky operation throw: a dump, a process, a thread? */
    const throws: nat -> bool
    const exitsZero: bool
    const services: Services
    var clock: nat
    var published: seq<Status>
    var effects: seq<Effect>

    constructor (throws: nat -> bool, exitsZero: bool, services: Services)
      ensures this.throws == throws && this.exitsZero == exitsZero && this.services == services
      ensures clock == 0 && published == [] && effects == []
    {
      this.throws, this.exitsZero, this.services := throws, exitsZero, services;
      clock, published, effects := 0, [], [];
    }

    method Risky() returns (threw: bool)
      modifies this`clock
      ensures threw == throws(old(clock))
    {
      threw := throws(clock);
      clock := clock + 1;
    }

    method PublishResult(s: Status) returns (threw: bool)
      modifies this`clock, this`published
      ensures threw == throws(old(clock))
      ensures published == old(published) + (if threw then [] else [s])
    {
      threw := Risky();
      if !threw {
        published := published + [s];
      }
    }

    /** Executing, the work, the terminal status: the shape of every handler that gets to work. */
    method Work(effect: seq<Effect>, process: bool) returns (threw: bool, ghost s: seq<Status>)
      modifies this`clock, this`published, this`effects
      ensures published == old(published) + s && Handled(s, threw) && (threw ==> Faulty())
      ensures !threw ==> s == [Executing, if process && !exitsZero then Failure else Success]
      ensures effects == old(effects) + if Executing in s then effect else []
    {
      s := [];
      threw := PublishResult(Executing);
      if threw {
        return;
      }
      s := [Executing];
      effects := effects + effect;
      if process {
        threw := Risky();
        if threw {
          return;
        }
      }
      var status := if process && !exitsZero then Failure else Success;
      threw := PublishResult(status);
      s := if threw then [Executing] else [Executing, status];
    }

    ghost predicate Faulty() {
      exists n: nat :: throws(n)
    }

    /** A failure reported without work. */
    method Reject() returns (threw: bool, ghost s: seq<Status>)
      modifies this`clock, this`published
      ensures published == old(published) + s && (threw ==> Faulty())
      ensures s == if threw then [] else [Failure]
    {
      threw := PublishResult(Failure);
      s := if threw then [] else [Failure];
    }

    /** handleShell() */
    method HandleShell(p: Payload) returns (threw: bool, ghost s: seq<Status>)
      modifies this`clock, this`published, this`effects
      ensures published == old(published) + s && Handled(s, threw) && (threw ==> Faulty())
      ensures !threw ==> s == Expected("shell", p, services, exitsZero)
      ensures effects == old(effects) + if Executing in s then Effects("shell", p, services) else []
    {
      var command := if p.NotObject? || p.command.WrongType? then p.text else Default(p.command);
      if command == "" {
        threw, s := Reject();
        return;
      }
      threw, s := Work([RanShell(command)], true);
    }

    /** The agent_update branch: either a failure, or an update that reports its own end. */
    method DispatchUpdate(p: Payload) returns (threw: bool, started: bool, ghost s: seq<Status>)
      modifies this`clock, this`published, this`effects
      ensures published == old(published) + s && s == if threw || started then [] else [Failure]
      ensures started ==> !threw && services.updates && AsksForUpdate(p)
      ensures effects == if started then old(effects) + [Requested(p)] else old(effects)
      ensures !threw ==> (started <==> services.updates && AsksForUpdate(p))
      ensures services.updates && UpdateFieldsThrow(p) ==> threw
      ensures threw ==> Faulty() || (services.updates && UpdateFieldsThrow(p))
    {
      s, started := [], false;
      if !services.updates {
        threw, s := Reject();
        return;
      }
      if UpdateFieldsThrow(p) {
        threw := true;
        return;
      }
      if Default(p.url) == "" || Default(p.sha256) == "" {
        threw, s := Reject();
        return;
      }
      threw := Risky();
      if !threw {
        effects := effects + [StartedUpdate(Default(p.url), Default(p.sha256))];
        started := true;
      }
    }

    /** The dispatch on the type of an acknowledged command. */
    method Handle(kind: string, p: Payload) returns (threw: bool, started: bool, ghost s: seq<Status>)
      modifies this`clock, this`published, this`effects
      ensures published == old(published) + s
      ensures if started then s == [] && !threw && AsksForUpdate(p) else Handled(s, threw)
      ensures effects == old(effects) + if started || Executing in s then Effects(kind, p, services) else []
      ensures started ==> Effects(kind, p, services) == [Requested(p)]
      ensures !threw ==> s == Expected(kind, p, services, exitsZero)
      ensures if kind == "agent_update" then Executing !in s else !started
      ensures kind == "agent_update" && services.updates && UpdateFieldsThrow(p) ==> threw
      ensures threw ==> Faulty() || (kind == "agent_update" && services.updates && UpdateFieldsThrow(p) && s == [])
    {
      started := false;
      if kind == "shell" {
        threw, s := HandleShell(p);
      } else if kind == "restart_service" {
        threw, s := Work([RanRestart], true);
      } else if kind == "collect_now" {
        threw, s := Work(If(services.collector, TriggeredCollection), false);
      } else if kind == "scan_network" {
        threw, s := Work(If(services.scanner, TriggeredScan), false);
      } else if kind == "get_info" {
        threw, s := Work([], false);
      } else if kind == "agent_update" {
        threw, started, s := DispatchUpdate(p);
      } else {
        threw, s := Reject();
      }
    }

    /** Without an identifier, a command that throws gets no failure: an acknowledged update with unreadable fields. */
    predicate DropsFailure(c: Command)
      requires Extractable(c)
    {
      !HasId(c) && Default(c.kind) == "agent_update" && services.updates && UpdateFieldsThrow(c.payload)
    }

    /** What executeCommand() does up to its catch clause. */
    method Attempt(c: Command) returns (id: string, threw: bool, started: bool, ghost s: seq<Status>)
      modifies this`clock, this`published, this`effects
      ensures id == if c.Command? && Readable(c.id) then Default(c.id) else ""
      ensures published == old(published) + s
      ensures !Extractable(c) || throws(old(clock)) ==> threw && !started && s == []
      ensures Extractable(c) && !throws(old(clock)) ==> s != [] && s[0] == Acknowledged
      ensures started ==> s == [Acknowledged] && !threw && Extractable(c) && AsksForUpdate(c.payload)
      ensures s != [] && !started ==> Handled(s[1..], threw)
      ensures if started || Executing in s
        then Extractable(c) && effects == old(effects) + CommandEffects(c, services)
        else effects == old(effects)
      ensures if IsA(c, "agent_update") then Executing !in s else !started
      ensures !threw ==> Extractable(c) && s == CommandStatuses(c, services, exitsZero)
      ensures started ==> CommandEffects(c, services) == [Requested(c.payload)]
      ensures Extractable(c) && !Faulty() ==> (threw <==>
        Default(c.kind) == "agent_update" && services.updates && UpdateFieldsThrow(c.payload))
      ensures Extractable(c) && !Faulty() && threw ==> s == [Acknowledged]
    {
      id, threw, started, s := "", true, false, [];
      if c.Command? && !c.id.WrongType? {
        id := Default(c.id);
        if !c.kind.WrongType? && !c.timeout.WrongType? {
          threw := PublishResult(Acknowledged);
          if !threw {
            threw, started, s := Handle(Default(c.kind), c.payload);
            s := [Acknowledged] + s;
          }
        }
      }
    }

    method ExecuteCommand(c: Command) returns (started: bool, ghost s: seq<Status>)
      modifies this`clock, this`published, this`effects
      ensures published == old(published) + s
      // a command with an identifier gets its whole lifecycle, or an update that closes it
      ensures HasId(c) ==> if started then s == [Acknowledged] else Lifecycle(s)
      ensures HasId(c) ==> (s == [Failure] <==> !Extractable(c) || throws(old(clock)))
      // it works on the host exactly once it says so, does what is asked, and succeeds only as expected
      ensures old(effects) <= effects && Did(c, services, Executing in s, started, effects[|old(effects)|..])
      ensures started ==> s == [Acknowledged] && Extractable(c) && AsksForUpdate(c.payload)
      ensures Success in s ==> Extractable(c) && s == CommandStatuses(c, services, exitsZero)
      ensures Success in s ==> OnlyReports(c) || (exitsZero && StartsProcess(c))
      // what it comes to when no operation throws, and without an identifier
      ensures Extractable(c) && !Faulty() ==>
        s == if DropsFailure(c) then [Acknowledged] else CommandStatuses(c, services, exitsZero)
      ensures Extractable(c) && !Faulty() ==> (started <==> services.updates && WantsUpdate(c))
      ensures !HasId(c) && !Extractable(c) ==> s == []
    {
      var id, threw;
      id, threw, started, s := Attempt(c);
      if !started {
        ClosesLifecycle(s, threw);
      }
      if threw && id != "" {
        published := published + [Failure];
        s := s + [Failure];
      }
      Consequences(c, services, exitsZero, started, s, effects[|old(effects)|..]);
    }
  }

  // ---------------------------------------------------------------- a command and the update it starts

  /** Runs a command and, if it starts one, the update: together they report one end, unless the update breaks off. */
  method ExecuteThrough(executor: CommandExecutor, manager: UM.UpdateManager, c: Command, o: UM.Outcomes)
    returns (ending: Option<UM.Ending>, ghost s: seq<Status>)
    requires manager.Valid()
    modifies executor, manager
    ensures manager.Valid()
    ensures executor.published == old(executor.published) + s
    ensures HasId(c) && ending == None ==> Lifecycle(s) && manager.published == old(manager.published)
    ensures HasId(c) && ending.Some? ==>
      s == [Acknowledged] && manager.published == old(manager.published) + UM.Messages(ending.value)
    // such an update never skips the verification
    ensures ending == Some(UM.Updated) ==>
      && c.Command? && c.payload.Fields? && UM.Live in manager.Disk()
      && manager.digest(manager.Disk()[UM.Live]) == Default(c.payload.sha256)
  {
    var started;
    started, s := executor.ExecuteCommand(c);
    if !started {
      return None, s;
    }
    var e, _, _ := manager.Update(Default(c.payload.sha256), o);
    ending := Some(e);
  }
}
