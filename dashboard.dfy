/** The crew dashboard (src/pages/Index.tsx): a local roster of crews and a
    notification feed. Creating a crew appends one; changing a crew's status
    rewrites that crew and pushes a notification whose severity follows the
    new status. The clock value used as a notification id is an input. */
module Dashboard {
  import opened Wrappers
  import opened Text

  /** The dashboard's own four crew statuses. */
  datatype CrewStatus = Active | Patrol | Responding | Offline

  datatype DashCrew = DashCrew(id: string, callSign: string, location: string, status: CrewStatus,
                               officers: seq<string>, lastUpdate: string)

  datatype Severity = Info | Warning | Error

  datatype Notice = Notice(id: string, message: string, time: string, severity: Severity)

  const JustNow := "только что"

  /** The label `statusConfig` gives each status. */
  function StatusLabel(s: CrewStatus): string {
    match s
    case Active => "Доступен"
    case Patrol => "Занят"
    case Responding => "Задержка на ситуации"
    case Offline => "Требуется поддержка"
  }

  /** The severity of the notification a status change raises: a crew
      asking for support is an error, one held up at a scene a warning, and
      the two ordinary statuses are information. */
  function SeverityOf(s: CrewStatus): (r: Severity)
    ensures r.Error? <==> s.Offline?
    ensures r.Warning? <==> s.Responding?
    ensures r.Info? <==> s.Active? || s.Patrol?
  {
    match s
    case Offline => Error
    case Responding => Warning
    case _ => Info
  }

  // ---------------------------------------------------------------------
  // The roster
  // ---------------------------------------------------------------------

  /** `crews.map(crew => crew.id === crewId ? { ...crew, status,
      lastUpdate: 'только что' } : crew)`, recursively. */
  function StatusChanged(crews: seq<DashCrew>, crewId: string, status: CrewStatus): (r: seq<DashCrew>)
    ensures |r| == |crews|
    ensures forall i :: 0 <= i < |crews| && crews[i].id != crewId ==> r[i] == crews[i]
    ensures forall i :: 0 <= i < |crews| && crews[i].id == crewId ==>
      r[i] == crews[i].(status := status, lastUpdate := JustNow)
  {
    if crews == [] then []
    else
      var c := crews[0];
      var rest := StatusChanged(crews[1..], crewId, status);
      var head := if c.id == crewId then c.(status := status, lastUpdate := JustNow) else c;
      var r := [head] + rest;
      assert forall i :: 1 <= i < |crews| ==> crews[i] == crews[1..][i - 1] && r[i] == rest[i - 1];
      r
  }

  /** `crews.find(c => c.id === crewId)` */
  function Find(crews: seq<DashCrew>, crewId: string): (r: Option<DashCrew>)
    ensures r.Some? ==> r.value in crews && r.value.id == crewId
    ensures r.None? ==> forall i :: 0 <= i < |crews| ==> crews[i].id != crewId
  {
    if crews == [] then None
    else if crews[0].id == crewId then Some(crews[0])
    else
      var r := Find(crews[1..], crewId);
      assert forall i :: 1 <= i < |crews| ==> crews[i] == crews[1..][i - 1];
      r
  }

  /** The fixed pieces of the status-change announcement. */
  const Lead := "Экипаж "
  const ChangedTo := " изменил статус на '"

  /** The text a status change announces: the lead, the crew's call sign
      (a missing crew interpolates as 'undefined'), and the status label
      in quotes. */
  function StatusMessage(crews: seq<DashCrew>, crewId: string, status: CrewStatus): (r: string)
    ensures var name := if Find(crews, crewId).Some? then Find(crews, crewId).value.callSign else "undefined";
      && |r| == |Lead| + |name| + |ChangedTo| + |StatusLabel(status)| + 1
      && r[..|Lead|] == Lead
      && r[|Lead|..|Lead| + |name|] == name
      && r[|Lead| + |name|..|Lead| + |name| + |ChangedTo|] == ChangedTo
      && r[|r| - 1 - |StatusLabel(status)|..|r| - 1] == StatusLabel(status)
      && r[|r| - 1] == '\''
  {
    var callSign := match Find(crews, crewId) case Some(c) => c.callSign case None => "undefined";
    FiveParts(Lead, callSign, ChangedTo, StatusLabel(status), "'");
    Lead + callSign + ChangedTo + StatusLabel(status) + "'"
  }

  /** Where each piece of a five-part concatenation sits. */
  lemma FiveParts<T>(a: seq<T>, b: seq<T>, c: seq<T>, d: seq<T>, e: seq<T>)
    ensures var m := a + b + c + d + e;
      && |m| == |a| + |b| + |c| + |d| + |e|
      && m[..|a|] == a
      && m[|a|..|a| + |b|] == b
      && m[|a| + |b|..|a| + |b| + |c|] == c
      && m[|m| - |e| - |d|..|m| - |e|] == d
      && m[|m| - |e|..] == e
  {
    var m := a + b + c + d + e;
    assert m[..|a|] == a;
    assert m[|a|..|a| + |b|] == b;
    assert m[|a| + |b|..|a| + |b| + |c|] == c;
    assert m[|m| - |e| - |d|..|m| - |e|] == d;
    assert m[|m| - |e|..] == e;
  }

  /** `crews.filter(c => c.status === s).length` */
  function CountStatus(crews: seq<DashCrew>, s: CrewStatus): (r: nat)
    ensures r <= |crews|
  {
    if crews == [] then 0 else (if crews[0].status == s then 1 else 0) + CountStatus(crews[1..], s)
  }

  /** The per-status counts of the cards add up to the total crew count. */
  lemma {:induction false} CountsSumToTotal(crews: seq<DashCrew>)
    ensures CountStatus(crews, Active) + CountStatus(crews, Patrol)
          + CountStatus(crews, Responding) + CountStatus(crews, Offline) == |crews|
  {
    if crews != [] {
      CountsSumToTotal(crews[1..]);
    }
  }

  predicate UniqueIds(crews: seq<DashCrew>) {
    forall i, j :: 0 <= i < j < |crews| ==> crews[i].id != crews[j].id
  }

  /** The roster's ids are '1', '2', … in order. */
  predicate IdsAreIndexes(crews: seq<DashCrew>) {
    forall i :: 0 <= i < |crews| ==> crews[i].id == NatToString(i + 1)
  }

  /** Ids numbered by position never repeat. */
  lemma IndexedIdsUnique(crews: seq<DashCrew>)
    requires IdsAreIndexes(crews)
    ensures UniqueIds(crews)
  {
    forall i, j | 0 <= i < j < |crews| ensures crews[i].id != crews[j].id {
      if crews[i].id == crews[j].id {
        NatToStringInjective(i + 1, j + 1);
      }
    }
  }

  /** A status change for an id no crew has changes nothing. */
  lemma {:induction false} StatusChangeUnknownId(crews: seq<DashCrew>, crewId: string, status: CrewStatus)
    requires Find(crews, crewId).None?
    ensures StatusChanged(crews, crewId, status) == crews
  {
    var r := StatusChanged(crews, crewId, status);
    assert forall i :: 0 <= i < |crews| ==> r[i] == crews[i];
  }

  /** With unique ids, a status change moves exactly one crew from its old
      status to the new one. */
  lemma {:induction false} StatusChangeMovesOneCrew(crews: seq<DashCrew>, crewId: string, status: CrewStatus, s: CrewStatus)
    requires UniqueIds(crews)
    requires Find(crews, crewId).Some?
    ensures CountStatus(StatusChanged(crews, crewId, status), s) + (if Find(crews, crewId).value.status == s then 1 else 0)
      == CountStatus(crews, s) + (if status == s then 1 else 0)
  {
    var rest := crews[1..];
    var r := StatusChanged(crews, crewId, status);
    assert r[1..] == StatusChanged(rest, crewId, status);
    assert CountStatus(r, s) == (if r[0].status == s then 1 else 0) + CountStatus(r[1..], s);
    assert CountStatus(crews, s) == (if crews[0].status == s then 1 else 0) + CountStatus(rest, s);
    if crews[0].id == crewId {
      HeadIdNotInTail(crews);
      StatusChangeUnknownId(rest, crewId, status);
    } else {
      UniqueTail(crews);
      StatusChangeMovesOneCrew(rest, crewId, status, s);
      assert r[0] == crews[0];
    }
  }

  lemma UniqueTail(crews: seq<DashCrew>)
    requires UniqueIds(crews) && crews != []
    ensures UniqueIds(crews[1..])
  {
    var rest := crews[1..];
    forall i, j | 0 <= i < j < |rest| ensures rest[i].id != rest[j].id {
      assert rest[i] == crews[i + 1] && rest[j] == crews[j + 1];
    }
  }

  lemma HeadIdNotInTail(crews: seq<DashCrew>)
    requires UniqueIds(crews) && crews != []
    ensures Find(crews[1..], crews[0].id).None?
  {
    var rest := crews[1..];
    forall i | 0 <= i < |rest| ensures rest[i].id != crews[0].id {
      assert rest[i] == crews[i + 1];
    }
  }

  /** The crew `handleCreateCrew` adds to a roster of `n` crews. */
  function NewCrew(n: nat): (r: DashCrew)
    ensures r.id == NatToString(n + 1) && r.status == Active && r.lastUpdate == JustNow
    ensures r.callSign == "Г-" + NatToString(400 + n)
    ensures r.location == "Новое местоположение" && r.officers == ["Новый сотрудник"]
  {
    DashCrew(NatToString(n + 1), "Г-" + NatToString(400 + n), "Новое местоположение", Active,
             ["Новый сотрудник"], JustNow)
  }

  class Board {
    var crews: seq<DashCrew>
    var notifications: seq<Notice>
    var showCreateDialog: bool

    /** The ids stay numbered by position. */
    predicate Valid()
      reads this
    {
      IdsAreIndexes(crews)
    }

    /** The three sample crews and two sample notifications the page starts
        with. */
    constructor()
      ensures Valid() && |crews| == 3 && |notifications| == 2 && !showCreateDialog
    {
      crews := [
        DashCrew("1", "А-101", "Центральный район, ул. Ленина", Patrol, ["Иванов И.И.", "Петров П.П."], "2 мин назад"),
        DashCrew("2", "Б-205", "Северный район, пр. Мира", Active, ["Сидоров С.С.", "Козлов К.К."], "5 мин назад"),
        DashCrew("3", "В-312", "Южный район, ул. Победы", Responding, ["Морозов М.М.", "Новиков Н.Н."], "1 мин назад")
      ];
      notifications := [
        Notice("1", "Экипаж В-312 изменил статус на 'Задержка на ситуации'", "1 мин назад", Warning),
        Notice("2", "Экипаж А-101 завершил патрулирование", "15 мин назад", Info)
      ];
      showCreateDialog := false;
      assert NatToString(1) == "1" && NatToString(2) == "2" && NatToString(3) == "3";
    }

    /** `addNotification(message, type)`: the new notice goes first, with
        the clock value as its id. */
    method AddNotification(message: string, severity: Severity, now: nat)
      modifies this
      ensures notifications == [Notice(NatToString(now), message, JustNow, severity)] + old(notifications)
      ensures crews == old(crews) && showCreateDialog == old(showCreateDialog)
    {
      notifications := [Notice(NatToString(now), message, JustNow, severity)] + notifications;
    }

    /** `handleCreateCrew()`: one active crew is appended, numbered after
        the last, and the dialog closes. */
    method CreateCrew()
      requires Valid()
      modifies this
      ensures Valid()
      ensures crews == old(crews) + [NewCrew(|old(crews)|)]
      ensures notifications == old(notifications) && !showCreateDialog
    {
      crews := crews + [NewCrew(|crews|)];
      showCreateDialog := false;
    }

    /** `handleStatusChange(crewId, status)`: the crew with that id takes
        the new status, every other crew stays, and a notice announcing the
        change is pushed with the severity of the new status. */
    method ChangeStatus(crewId: string, status: CrewStatus, now: nat)
      requires Valid()
      modifies this
      ensures Valid()
      ensures crews == StatusChanged(old(crews), crewId, status)
      ensures notifications ==
        [Notice(NatToString(now), StatusMessage(old(crews), crewId, status), JustNow, SeverityOf(status))]
        + old(notifications)
      ensures showCreateDialog == old(showCreateDialog)
    {
      var message := StatusMessage(crews, crewId, status);
      crews := StatusChanged(crews, crewId, status);
      AddNotification(message, SeverityOf(status), now);
    }

    /** The clear-all button of the notification dialog. */
    method ClearNotifications()
      modifies this
      ensures notifications == [] && crews == old(crews) && showCreateDialog == old(showCreateDialog)
    {
      notifications := [];
    }
  }
}
