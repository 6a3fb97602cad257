/**
 * The source services retired after an import: what is journalled about them, and what the autostart list keeps of
 * them between retirement and recovery.
 *
 * Two texts describe the list when the services were recorded. `read` is the file as it was read; `base` is the list
 * itself, which is another text while an interrupted edit of the file is still to be finished. A container's id is its
 * rank in collation order.
 */
module RetiredServices {
  import opened Basics
  import opened RestartPolicies
  import opened AutostartText

  datatype Container = Container(policy: Policy, running: bool)
  datatype Service = Service(id: int, name: string, policy: Policy, running: bool, autostart: Option<string>)

  /** The reviewed source: its containers' ids and the restart policies its workers had. */
  datatype Source = Source(database: int, redis: Option<int>, workers: seq<int>, restart: map<int, Policy>)

  // Recording the services

  function FirstNamed(lines: seq<string>, name: string): (line: Option<string>)
    ensures line.Some? ==> OneLineOf(line.value, lines, name)
  {
    if lines == [] then None
    else if Name(lines[0]) == name then TrimLine(lines[0]); Some(Trim(lines[0]))
    else FirstNamed(lines[1..], name)
  }

  ghost predicate OneLineOf(line: string, lines: seq<string>, name: string) {
    Name(line) == name && exists raw :: raw in lines && Name(raw) == name && line == Trim(raw)
  }

  /** How the list starts this container: its first line, trimmed. */
  function StartedBy(text: string, name: string): Option<string> {
    FirstNamed(Split(text), name)
  }

  /** The one line that recovery puts back for a container that the list starts; none for another. */
  function StartLine(text: string, name: string): seq<string> {
    match StartedBy(text, name)
    case None => []
    case Some(line) => [line]
  }

  function Position(lines: seq<string>, line: Option<string>): nat {
    if lines == [] || line.None? || line.value == "" then |lines|
    else if Trim(lines[0]) == line.value then 0
    else 1 + Position(lines[1..], line)
  }

  function Record(id: int, name: string, container: Container, lines: seq<string>): Service {
    Service(id, name, container.policy, container.running, FirstNamed(lines, name))
  }

  /** The database, and Redis when it is known, in the order the list starts them. */
  function Records(source: Source, names: map<int, string>, containers: map<int, Container>, lines: seq<string>)
    : seq<Service>
    requires containers.Keys == names.Keys && source.database in containers
  {
    var database := Record(source.database, names[source.database], containers[source.database], lines);
    if source.redis.None? || source.redis.value !in containers then [database]
    else
      var redis := Record(source.redis.value, names[source.redis.value], containers[source.redis.value], lines);
      InListOrder(lines, database, redis)
  }

  function InListOrder(lines: seq<string>, a: Service, b: Service): (ordered: seq<Service>)
    ensures ordered == [a, b] || ordered == [b, a]
  {
    if Position(lines, b.autostart) < Position(lines, a.autostart) then [b, a] else [a, b]
  }

  /**
   * Docker's container names are not empty and unique, the retired services are not workers, and a review records the
   * workers' restart policies.
   */
  ghost predicate Sane(source: Source, names: map<int, string>) {
    && (forall id | id in names :: names[id] != "")
    && (forall a, b | a in names && b in names && names[a] == names[b] :: a == b)
    && source.database !in source.workers
    && (source.redis.Some? ==> source.redis.value !in source.workers && source.redis.value != source.database)
    && (forall id | id in source.workers :: id in names)
    && (forall id :: id in source.restart <==> id in source.workers)
  }

  function ServiceNames(services: seq<Service>): set<string> {
    set s | s in services :: s.name
  }

  function ServiceIds(services: seq<Service>): set<int> {
    set s | s in services :: s.id
  }

  function Ids(services: seq<Service>): (ids: seq<int>)
    ensures |ids| == |services| && forall i | 0 <= i < |ids| :: ids[i] == services[i].id
  {
    seq(|services|, i requires 0 <= i < |services| => services[i].id)
  }

  lemma IdsAreServiceIds(services: seq<Service>)
    ensures (set id | id in Ids(services)) == ServiceIds(services)
    ensures forall s | s in services :: s.id in Ids(services)
  {
    forall s | s in services
      ensures s.id in Ids(services)
    {
      var k :| 0 <= k < |services| && services[k] == s;
      assert Ids(services)[k] == s.id;
    }
  }

  function RecordedLine(s: Service): seq<string> {
    if s.autostart.Some? then [s.autostart.value] else []
  }

  /** The recorded lines, in the order of the records. */
  function Lines(services: seq<Service>): seq<string> {
    if services == [] then []
    else if services[0].autostart.None? || services[0].autostart.value == "" then Lines(services[1..])
    else [services[0].autostart.value] + Lines(services[1..])
  }

  lemma {:induction false} LinesAreOfServices(services: seq<Service>, line: string)
    requires line in Lines(services)
    ensures line != "" && exists s :: s in services && s.autostart == Some(line)
  {
    if services[0].autostart == Some(line) && line != "" {
      assert services[0] in services;
    } else {
      assert line in Lines(services[1..]);
      LinesAreOfServices(services[1..], line);
    }
  }

  /** Where the list starts this container; its length when it does not. */
  function FirstIndex(lines: seq<string>, name: string): (i: nat)
    ensures i <= |lines| && (i < |lines| ==> Name(lines[i]) == name)
  {
    if lines == [] || Name(lines[0]) == name then 0 else 1 + FirstIndex(lines[1..], name)
  }

  /** The list starts these two containers in this order: the first where it starts the second at all. */
  ghost predicate StartedInOrder(lines: seq<string>, first: Service, second: Service) {
    second.autostart.Some? ==>
      first.autostart.Some? && FirstIndex(lines, first.name) < FirstIndex(lines, second.name) < |lines|
  }

  /**
   * The records describe the containers as they were, and their lines as they were read, in the order in which the
   * list starts them.
   */
  ghost predicate Recorded(services: seq<Service>, before: map<int, Container>, read: string) {
    && (forall s | s in services ::
          && s.id in before && before[s.id] == Container(s.policy, s.running) && s.name != ""
          && s.autostart == StartedBy(read, s.name))
    && (forall i, j | 0 <= i < j < |services| ::
          services[i].name != services[j].name && services[i].id != services[j].id &&
          StartedInOrder(Split(read), services[i], services[j]))
  }

  /** A recorded line's place in the list is where the list starts its container. */
  lemma {:induction false} PositionIsFirst(lines: seq<string>, name: string)
    requires name != ""
    ensures Position(lines, FirstNamed(lines, name)) == FirstIndex(lines, name)
    ensures FirstNamed(lines, name).Some? <==> FirstIndex(lines, name) < |lines|
  {
    if lines != [] {
      TrimLine(lines[0]);
      PositionIsFirst(lines[1..], name);
    }
  }

  /** The database, and Redis when there is such a container. */
  function RetiredIds(source: Source, containers: map<int, Container>): set<int> {
    {source.database} + if source.redis.Some? && source.redis.value in containers then {source.redis.value} else {}
  }

  lemma RecordsAreRecorded(
    source: Source, names: map<int, string>, containers: map<int, Container>, read: string)
    requires Sane(source, names) && containers.Keys == names.Keys && source.database in containers
    ensures Recorded(Records(source, names, containers, Split(read)), containers, read)
    ensures forall s | s in Records(source, names, containers, Split(read)) ::
              Safe(s, containers) && s.id in names && s.name == names[s.id] && s.id !in source.workers
    ensures |Records(source, names, containers, Split(read))| <= 2
    ensures ServiceIds(Records(source, names, containers, Split(read))) == RetiredIds(source, containers)
  {
    RecordsInOrder(source, names, containers, Split(read));
    RecordsDescribe(source, names, containers, Split(read));
  }

  lemma RecordsInOrder(
    source: Source, names: map<int, string>, containers: map<int, Container>, lines: seq<string>)
    requires Sane(source, names) && containers.Keys == names.Keys && source.database in containers
    ensures var list := Records(source, names, containers, lines);
            |list| > 1 ==> StartedInOrder(lines, list[0], list[1])
  {
    var database := Record(source.database, names[source.database], containers[source.database], lines);
    if source.redis.Some? && source.redis.value in containers {
      var redis := Record(source.redis.value, names[source.redis.value], containers[source.redis.value], lines);
      if Position(lines, redis.autostart) < Position(lines, database.autostart) {
        OrderedByPosition(lines, redis, database);
      } else {
        OrderedByPosition(lines, database, redis);
      }
    }
  }

  /** Each record says of its container what there is to say, and there is one for each service to retire. */
  lemma RecordsDescribe(
    source: Source, names: map<int, string>, containers: map<int, Container>, lines: seq<string>)
    requires Sane(source, names) && containers.Keys == names.Keys && source.database in containers
    ensures var list := Records(source, names, containers, lines);
            && |list| <= 2 && ServiceIds(list) == RetiredIds(source, containers)
            && (|list| > 1 ==> list[0].name != list[1].name && list[0].id != list[1].id)
            && forall s | s in list ::
                 && s.id in containers && s == Record(s.id, names[s.id], containers[s.id], lines)
                 && s.name != "" && s.id !in source.workers
  {
  }

  lemma OrderedByPosition(lines: seq<string>, first: Service, second: Service)
    requires first.name != "" && second.name != "" && first.name != second.name
    requires first.autostart == FirstNamed(lines, first.name) && second.autostart == FirstNamed(lines, second.name)
    requires Position(lines, first.autostart) <= Position(lines, second.autostart)
    ensures StartedInOrder(lines, first, second)
  {
    PositionIsFirst(lines, first.name);
    PositionIsFirst(lines, second.name);
  }

  lemma RecordedLines(services: seq<Service>, before: map<int, Container>, read: string)
    requires Recorded(services, before, read)
    ensures forall line | line in Lines(services) ::
              OneLine(line) && exists s :: s in services && s.name == Name(line) && s.autostart == Some(line)
    ensures forall s | s in services && s.autostart.Some? ::
              OneLine(s.autostart.value) && Name(s.autostart.value) == s.name && s.autostart.value != ""
  {
    forall s | s in services && s.autostart.Some?
      ensures OneLine(s.autostart.value) && Name(s.autostart.value) == s.name && s.autostart.value != ""
    {
      var raw :| raw in Split(read) && Name(raw) == s.name && s.autostart.value == Trim(raw);
      TrimLine(raw);
    }
    forall line | line in Lines(services)
      ensures OneLine(line) && exists s :: s in services && s.name == Name(line) && s.autostart == Some(line)
    {
      LinesAreOfServices(services, line);
    }
  }

  lemma RecordedRest(services: seq<Service>, before: map<int, Container>, read: string)
    requires Recorded(services, before, read) && services != []
    ensures Recorded(services[1..], before, read)
  {
  }

  /** The service that a recorded line is of. */
  lemma {:induction false} Owner(services: seq<Service>, i: nat) returns (k: nat)
    requires i < |Lines(services)|
    ensures k < |services| && services[k].autostart == Some(Lines(services)[i])
  {
    var n := |Lines(services)| - |Lines(services[1..])|;
    if i < n {
      k := 0;
    } else {
      k := Owner(services[1..], i - n);
      k := k + 1;
    }
  }

  /** The recorded lines are in the order of the records. */
  lemma {:induction false} OwnersInOrder(services: seq<Service>, a: nat, b: nat) returns (i: nat, j: nat)
    requires a < b < |Lines(services)|
    ensures i < j < |services|
    ensures services[i].autostart == Some(Lines(services)[a]) && services[j].autostart == Some(Lines(services)[b])
  {
    var n := |Lines(services)| - |Lines(services[1..])|;
    if a < n {
      i := 0;
      j := Owner(services[1..], b - n);
    } else {
      i, j := OwnersInOrder(services[1..], a - n, b - n);
      i := i + 1;
    }
    j := j + 1;
  }

  /** The recorded lines are in the order in which the list starts their containers. */
  lemma LinesInOrder(services: seq<Service>, before: map<int, Container>, read: string, a: nat, b: nat)
    requires Recorded(services, before, read) && a < b < |Lines(services)|
    ensures FirstIndex(Split(read), Name(Lines(services)[a])) < FirstIndex(Split(read), Name(Lines(services)[b]))
  {
    var i, j := OwnersInOrder(services, a, b);
    RecordedLines(services, before, read);
    assert services[i] in services && services[j] in services;
    assert StartedInOrder(Split(read), services[i], services[j]);
  }

  // What every list between retirement and recovery keeps

  /** A service's lines are those the list had, gone, or the one recorded line. */
  ghost predicate FitsService(text: string, base: string, s: Service) {
    LinesOf(text, s.name) == LinesOf(base, s.name) || LinesOf(text, s.name) == [] ||
    LinesOf(text, s.name) == RecordedLine(s)
  }

  /** The other lines are as before, and the services' lines are ones recovery works from. */
  ghost predicate Fits(text: string, base: string, services: seq<Service>, hidden: set<string>) {
    Others(text, hidden) == Others(base, hidden) && forall s | s in services :: FitsService(text, base, s)
  }

  /** The services' lines were removed: each is gone, or back as it was recorded. */
  ghost predicate Removed(text: string, services: seq<Service>) {
    forall s | s in services :: LinesOf(text, s.name) == [] || LinesOf(text, s.name) == RecordedLine(s)
  }

  /** Every recorded line is on the list: as the list had it, or exactly once as recorded. */
  ghost predicate LinesBack(text: string, base: string, services: seq<Service>) {
    forall s | s in services ::
      FitsService(text, base, s) && (s.autostart.Some? ==> LinesOf(text, s.name) != [])
  }

  lemma FitsRemove(text: string, base: string, services: seq<Service>, hidden: set<string>, names: set<string>)
    requires Fits(text, base, services, hidden)
    requires names <= hidden && (forall s | s in services :: s.name != "")
    ensures Fits(Remove(text, names), base, services, hidden)
    ensures Removed(text, services) ==> Removed(Remove(text, names), services)
  {
    RemoveEffect(text, names, "-", hidden);
    forall s | s in services
      ensures FitsService(Remove(text, names), base, s)
      ensures LinesOf(Remove(text, names), s.name) in {[], LinesOf(text, s.name)}
    {
      RemoveEffect(text, names, s.name, hidden);
    }
  }

  lemma {:induction false} LineOfService(services: seq<Service>, k: nat, before: map<int, Container>, read: string)
    requires Recorded(services, before, read) && k < |services|
    ensures Only(Lines(services), services[k].name) == RecordedLine(services[k])
  {
    var rest := services[1..];
    RecordedRest(services, before, read);
    assert services[0] in services && services[k] in services;
    RecordedLines(services, before, read);
    if k == 0 {
      NoLineOf(rest, services[0].name, before, read);
    } else {
      LineOfService(rest, k - 1, before, read);
    }
  }

  lemma NoLineOf(services: seq<Service>, name: string, before: map<int, Container>, read: string)
    requires Recorded(services, before, read) && forall s | s in services :: s.name != name
    ensures Only(Lines(services), name) == []
  {
    RecordedLines(services, before, read);
    OnlyNone(Lines(services), name);
  }

  /** Putting the recorded lines back gives a service the lines it has, or else its recorded one. */
  lemma RestoresService(
    text: string, services: seq<Service>, s: Service, before: map<int, Container>, read: string)
    requires Recorded(services, before, read) && s in services
    ensures LinesOf(Restore(text, Lines(services)), s.name) ==
            if LinesOf(text, s.name) != [] then LinesOf(text, s.name) else RecordedLine(s)
  {
    RecordedLines(services, before, read);
    var k :| 0 <= k < |services| && services[k] == s;
    RestoreEffect(text, Lines(services), s.name);
    LineOfService(services, k, before, read);
    ListedLines(text, s.name);
  }

  /** Putting the recorded lines back keeps the list fitting and leaves every recorded line on it. */
  lemma FitsRestore(
    text: string, base: string, services: seq<Service>, hidden: set<string>,
    before: map<int, Container>, read: string)
    requires Fits(text, base, services, hidden)
    requires Recorded(services, before, read) && ServiceNames(services) <= hidden
    ensures Fits(Restore(text, Lines(services)), base, services, hidden)
    ensures LinesBack(Restore(text, Lines(services)), base, services)
    ensures Removed(text, services) ==> Removed(Restore(text, Lines(services)), services)
  {
    RecordedLines(services, before, read);
    RestoreOthers(text, Lines(services), hidden);
    forall s | s in services
      ensures LinesOf(Restore(text, Lines(services)), s.name) ==
              if LinesOf(text, s.name) != [] then LinesOf(text, s.name) else RecordedLine(s)
    {
      RestoresService(text, services, s, before, read);
    }
  }

  /** Where none of the services is listed, recovery writes their lines above the list, in the recorded order. */
  lemma RestoreInOrder(text: string, services: seq<Service>, before: map<int, Container>, read: string)
    requires Recorded(services, before, read) && forall s | s in services :: LinesOf(text, s.name) == []
    ensures Split(Restore(text, Lines(services))) == Lines(services) + Split(text)
  {
    RecordedLines(services, before, read);
    forall line | line in Lines(services)
      ensures Name(line) !in Listed(text)
    {
      ListedLines(text, Name(line));
    }
    KeepAll(Lines(services), Listed(text));
    SplitRestore(text, Lines(services));
  }

  /** Where the list stood once, it stands once: with its own line, or with the recorded one. */
  lemma ListedOnceIsBackOnce(
    text: string, base: string, services: seq<Service>, before: map<int, Container>, read: string, s: Service)
    requires Recorded(services, before, read) && LinesBack(text, base, services)
    requires s in services && StartedBy(base, s.name) == s.autostart && |LinesOf(base, s.name)| == 1
    ensures |LinesOf(text, s.name)| == 1 && StartedBy(text, s.name) == StartedBy(base, s.name)
  {
    FirstOfLines(Split(base), s.name);
    StartedAsRead(text, base, services, before, read, s);
  }

  /** Only a container's own lines decide how the list starts it. */
  lemma {:induction false} FirstOfLines(lines: seq<string>, name: string)
    ensures FirstNamed(lines, name) == var own := Only(lines, name); if own == [] then None else Some(Trim(own[0]))
  {
    if lines != [] {
      FirstOfLines(lines[1..], name);
    }
  }

  /** A service whose lines were removed is started by what was recorded, once its line is back. */
  lemma StartedAsRecorded(
    text: string, base: string, services: seq<Service>, before: map<int, Container>, read: string, s: Service)
    requires Recorded(services, before, read) && LinesBack(text, base, services) && s in services
    requires LinesOf(text, s.name) in {[], RecordedLine(s)}
    ensures StartedBy(text, s.name) == s.autostart
  {
    FirstOfLines(Split(text), s.name);
    if s.autostart.Some? {
      var raw :| raw in Split(read) && Name(raw) == s.name && s.autostart.value == Trim(raw);
      TrimTwice(raw);
    }
  }

  /** A service that was read as the list had it is started as it was, once every recorded line is back. */
  lemma StartedAsRead(
    text: string, base: string, services: seq<Service>, before: map<int, Container>, read: string, s: Service)
    requires Recorded(services, before, read) && LinesBack(text, base, services) && s in services
    requires StartedBy(read, s.name) == StartedBy(base, s.name)
    ensures StartedBy(text, s.name) == StartedBy(base, s.name)
  {
    FirstOfLines(Split(text), s.name);
    FirstOfLines(Split(base), s.name);
    if LinesOf(text, s.name) in {[], RecordedLine(s)} {
      StartedAsRecorded(text, base, services, before, read, s);
    }
  }

  /**
   * Recovery after a completed retirement starts a service as the list did exactly when the list as it was read
   * started it so.
   */
  lemma StartedExactlyAsRead(
    text: string, base: string, services: seq<Service>, before: map<int, Container>, read: string, s: Service)
    requires Recorded(services, before, read) && LinesBack(text, base, services) && Removed(text, services)
    requires s in services
    ensures StartedBy(text, s.name) == StartedBy(base, s.name) <==> StartedBy(read, s.name) == StartedBy(base, s.name)
  {
    StartedAsRecorded(text, base, services, before, read, s);
  }

  // Two lists that differ in the lines of some containers only

  ghost predicate SameBut(text: string, base: string, names: set<string>) {
    && Others(text, names) == Others(base, names)
    && forall name | name != "" && name !in names :: LinesOf(text, name) == LinesOf(base, name)
  }

  lemma RemoveSameBut(text: string, names: set<string>)
    ensures SameBut(Remove(text, names), text, names)
  {
    RemoveEffect(text, names, "-", names);
    forall name | name != "" && name !in names
      ensures LinesOf(Remove(text, names), name) == LinesOf(text, name)
    {
      RemoveEffect(text, names, name, names);
    }
  }

  lemma SameButOthers(text: string, base: string, few: set<string>, many: set<string>)
    requires SameBut(text, base, few) && few <= many
    ensures Others(text, many) == Others(base, many)
  {
    KeepKeep(Split(text), few + {""}, many + {""});
    KeepKeep(Split(base), few + {""}, many + {""});
    assert few + {""} + (many + {""}) == many + {""};
  }

  lemma SameButLinesBack(text: string, base: string, former: string, services: seq<Service>, names: set<string>)
    requires SameBut(base, former, names) && forall s | s in services :: s.name != "" && s.name !in names
    ensures LinesBack(text, base, services) <==> LinesBack(text, former, services)
    ensures forall s | s in services :: StartedBy(base, s.name) == StartedBy(former, s.name)
  {
    forall s | s in services
      ensures LinesOf(base, s.name) == LinesOf(former, s.name)
      ensures StartedBy(base, s.name) == StartedBy(former, s.name)
    {
      FirstOfLines(Split(base), s.name);
      FirstOfLines(Split(former), s.name);
    }
  }

  // The containers

  /** No container but `ids` changes. */
  ghost predicate Untouched(was: map<int, Container>, now: map<int, Container>, ids: set<int>) {
    now.Keys == was.Keys && forall id | id in now && id !in ids :: now[id] == was[id]
  }

  ghost predicate Halting(was: Container, now: Container) {
    now == was || now == was.(policy := NEVER) || now == Container(NEVER, false)
  }

  lemma HaltedIsSafe(services: seq<Service>, was: map<int, Container>, now: map<int, Container>)
    requires now.Keys == was.Keys && forall id | id in now :: Halting(was[id], now[id])
    requires forall s | s in services :: Safe(s, was)
    ensures forall s | s in services :: Safe(s, now)
  {
    assert forall s | s in services :: Halting(was[s.id], now[s.id]);
  }

  /** A retired service's policy is its own, "no", or its own put back; it does not run unless it did. */
  ghost predicate Safe(s: Service, containers: map<int, Container>) {
    && s.id in containers
    && containers[s.id].policy in {s.policy, NEVER, PutBack(s.policy)}
    && (containers[s.id].running ==> s.running)
  }

  /** A retired service has its own policy, put back, and runs exactly if it did. */
  ghost predicate Back(s: Service, containers: map<int, Container>) {
    s.id in containers && containers[s.id] == Container(PutBack(s.policy), s.running)
  }
}
