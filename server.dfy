/** The web server variant. A run flag and two status strings are module-level
    state, and its copy loop runs as a chain of callbacks. Each method below is
    one step that JavaScript's event loop runs without interruption: a pass of
    the loop beginning, robocopy's close event, nircmd's callback, and the
    /api/start, /api/stop and /api/status handlers. Requests may arrive
    between any two steps. */
module WebServer {
  import opened Text
  import opened Environment
  import opened Naming

  // ---------------------------------------------------------------------
  // Status texts
  // ---------------------------------------------------------------------

  const InitialStatus: string := "Servidor listo. Esperando inicio..."
  const NoCdName: string := "N/A"
  const StoppedManually: string := "Proceso detenido manualmente."
  const Scanning: string := "Buscando discos en " + DriveA + " y " + DriveB + "..."
  const PassFinished: string := "Proceso de copia finalizado o detenido. Servidor listo."
  const Stopping: string := "Deteniendo... " + "El proceso terminar\U{E1} despu\U{E9}s de la copia actual."
  const CheckMark: string := "\U{2705}"
  const CrossMark: string := "\U{274C}"
  const WarningSign: string := "\U{26A0}\U{FE0F}"
  const EjectedText: string := CheckMark + " COPIA EXITOSA. Disco expulsado."
  const EjectWarningText: string := CheckMark + " COPIA EXITOSA. Disco expulsado (Advertencia de NirCmd)."
  const EjectNotFoundText: string := CrossMark + " ERROR FATAL: " + "nircmd.exe no se encontr\U{F3} en el PATH."
  const EjectLaunchFailedText: string := WarningSign + " ERROR inesperado al intentar llamar a NirCmd."

  /** The status while the loop waits five seconds for the next pass. */
  function WaitingStatus(lastCopyInfo: string): string {
    "Esperando 5 segundos. Copia reciente: " + (if lastCopyInfo == "" then "Ninguna" else lastCopyInfo) + "."
  }

  function ProcessingInfo(cdLabel: string, folder: string, drive: string): string {
    "Procesando CD: " + cdLabel + " como " + folder + " desde " + drive + "."
  }

  function CopiedInfo(folder: string): string {
    CheckMark + " COPIA EXITOSA DE " + folder + ". Expulsando..."
  }

  const SeverePrefix: string := CrossMark + " ERROR DE COPIA GRAVE " + "(c\U{F3}digo: "

  function SevereInfo(code: int, folder: string): string {
    SeverePrefix + IntToString(code) + ") en " + folder + ". Revise el log."
  }

  function CopyLogEntry(cdLabel: string, folder: string, drive: string, targetPath: string): string {
    "--- Copiando Disco ETIQUETA: " + cdLabel + " (" + folder + ") de " + drive + " a " + targetPath + " ---\n"
  }

  // ---------------------------------------------------------------------
  // What the environment answers
  // ---------------------------------------------------------------------

  /** The answers one drive check gets: the media query, the label query, the
      clock for the timestamp, `Date.now()` for a missing label, and whether the
      target folder already exists. */
  datatype Probe = Probe(media: QueryResult, labelQuery: QueryResult, clock: Clock, labelMillis: nat, folderExists: bool)

  /** What nircmd's callback receives: no error, or an error with its message. */
  datatype EjectResult = EjectSucceeded | EjectFailed(message: string)

  /** The JSON body of a /api/start or /api/stop reply. */
  datatype Reply = Reply(success: bool, message: string)

  /** The JSON body of a /api/status reply. */
  datatype StatusReply = StatusReply(running: bool, status: string, cdName: string)

  const AlreadyRunning: Reply := Reply(false, "El proceso ya est\U{E1} corriendo.")
  const Started: Reply := Reply(true, "Proceso de copia iniciado.")
  const AlreadyStopped: Reply := Reply(true, "El proceso ya estaba detenido.")
  const StopSent: Reply := Reply(true, "Comando de detenci\U{F3}n enviado.")

  /** Where the copy loop is: between passes, or waiting for robocopy on a drive. */
  datatype Phase = Idle | Copying(drive: string, folder: string)

  // ---------------------------------------------------------------------
  // Specification functions
  // ---------------------------------------------------------------------

  function SlotLabel(p: Probe): string {
    VolumeLabel(p.labelQuery, p.labelMillis)
  }

  function SlotFolder(p: Probe): string {
    LabelFolderName(Timestamp(p.clock), SlotLabel(p))
  }

  /** The calls `checkAndCopy` makes once it knows the label and the folder,
      up to launching robocopy. */
  function LaunchEffects(drive: string, cdLabel: string, folder: string, folderExists: bool): seq<Effect> {
    var path := TargetDir + folder;
    (if folderExists then [] else [MakeDir(path)])
    + [AppendLog(CopyLogEntry(cdLabel, folder, drive, path)), RunCommand(Robocopy(drive, path))]
  }

  /** The calls `checkAndCopy` makes before it waits for robocopy (or resolves at once). */
  function CheckEffects(drive: string, p: Probe): seq<Effect> {
    [RunCommand(MediaQuery(drive))]
    + if !IsMediaLoaded(p.media) then []
      else [RunCommand(LabelQuery(drive))] + LaunchEffects(drive, SlotLabel(p), SlotFolder(p), p.folderExists)
  }

  /** The calls one pass of `monitorLoop` makes before it waits or ends:
      drive A's check, then drive B's if A had no disc. */
  function PassEffects(a: Probe, b: Probe): seq<Effect> {
    CheckEffects(DriveA, a) + if IsMediaLoaded(a.media) then [] else CheckEffects(DriveB, b)
  }

  /** The status text a pass that found the flag set leaves in `lastCopyInfo`:
      the report of the disc it started copying, or the previous text. */
  function PassInfo(a: Probe, b: Probe, last: string): string {
    if IsMediaLoaded(a.media) then ProcessingInfo(SlotLabel(a), SlotFolder(a), DriveA)
    else if IsMediaLoaded(b.media) then ProcessingInfo(SlotLabel(b), SlotFolder(b), DriveB)
    else last
  }

  /** Where a pass that found the flag set stops and waits: on the first
      drive, in order A then B, that holds a disc; or idle if neither does. */
  function PassPhase(a: Probe, b: Probe): Phase {
    if IsMediaLoaded(a.media) then Copying(DriveA, SlotFolder(a))
    else if IsMediaLoaded(b.media) then Copying(DriveB, SlotFolder(b))
    else Idle
  }

  /** The status while robocopy reports progress on `folder`. */
  function ProgressStatus(folder: string, data: string): string {
    "Copiando " + folder + "... " + LastLine(Trim(data))
  }

  /** The status text robocopy's close handler leaves behind. */
  function CloseInfo(code: int, ejectThrows: bool, folder: string): string {
    if !IsCopySuccess(code) then SevereInfo(code, folder)
    else if ejectThrows then EjectLaunchFailedText
    else CopiedInfo(folder)
  }

  /** The eject is launched only after a successful copy. */
  predicate LaunchesEject(code: int, ejectThrows: bool) {
    IsCopySuccess(code) && !ejectThrows
  }

  /** The calls robocopy's close handler makes. */
  function CloseEffects(code: int, ejectThrows: bool, drive: string): seq<Effect> {
    if LaunchesEject(code, ejectThrows) then [RunCommand(Eject(drive))] else []
  }

  /** The status text nircmd's callback writes. */
  function EjectText(r: EjectResult): string {
    match r
    case EjectSucceeded => EjectedText
    case EjectFailed(message) => if Contains(message, "not found") then EjectNotFoundText else EjectWarningText
  }

  // ---------------------------------------------------------------------
  // Properties of the status texts
  // ---------------------------------------------------------------------

  /** A severe copy failure reports the exit code and the folder. */
  lemma SevereInfoShowsCode(code: int, folder: string)
    ensures Contains(SevereInfo(code, folder), IntToString(code))
    ensures Contains(SevereInfo(code, folder), folder)
  {
    var s := SevereInfo(code, folder);
    var c := IntToString(code);
    assert s[|SeverePrefix|..|SeverePrefix| + |c|] == c;
    assert OccursAt(s, c, |SeverePrefix|);
    var at := |SeverePrefix| + |c| + 5;
    assert s[at..at + |folder|] == folder;
    assert OccursAt(s, folder, at);
    ContainsIff(s, c);
    ContainsIff(s, folder);
  }

  /** The severe text is the prefix followed by the numeral and the rest. */
  lemma SevereInfoSplits(code: int, folder: string)
    ensures SevereInfo(code, folder) == SeverePrefix + (IntToString(code) + (") en " + folder + ". Revise el log."))
  {
    AppendAssociates(SeverePrefix, IntToString(code), ") en " + folder, ". Revise el log.");
  }

  /** The severe text determines the exit code: the numeral after the prefix
      ends at the first `)`, and distinct codes render differently. */
  lemma SevereInfoDeterminesCode(c1: int, f1: string, c2: int, f2: string)
    requires SevereInfo(c1, f1) == SevereInfo(c2, f2)
    ensures c1 == c2
  {
    var r1, r2 := IntToString(c1), IntToString(c2);
    var u1, u2 := ") en " + f1 + ". Revise el log.", ") en " + f2 + ". Revise el log.";
    SevereInfoSplits(c1, f1);
    SevereInfoSplits(c2, f2);
    assert r1 + u1 == SevereInfo(c1, f1)[|SeverePrefix|..] == r2 + u2;
    IntToStringChars(c1);
    IntToStringChars(c2);
    NumeralEndsAtParen(r1, u1, r2, u2);
    IntRoundTrip(c1);
    IntRoundTrip(c2);
  }

  /** Robocopy's close handler reports a severe failure exactly when the code is above 8. */
  lemma CloseInfoSevereIff(code: int, ejectThrows: bool, folder: string)
    ensures var info := CloseInfo(code, ejectThrows, folder);
      |info| >= |SeverePrefix| && (info[..|SeverePrefix|] == SeverePrefix <==> !IsCopySuccess(code))
  {
    var info := CloseInfo(code, ejectThrows, folder);
    if IsCopySuccess(code) {
      assert info[0] != SeverePrefix[0];
    }
  }

  /** nircmd's callback never writes a severe copy failure: its texts differ from
      every severe text, so an eject failure can never look like a failed copy. */
  lemma EjectTextNeverSevere(r: EjectResult, code: int, folder: string)
    ensures EjectText(r) != SevereInfo(code, folder)
    ensures EjectText(r)[..|SeverePrefix|] != SeverePrefix
  {
    var t := EjectText(r);
    var s := SevereInfo(code, folder);
    assert SeverePrefix[0] == '\U{274C}' && SeverePrefix[8] == 'D';
    assert s[0] == SeverePrefix[0] && s[8] == SeverePrefix[8];
    if t == EjectNotFoundText {
      assert t[8] == 'F';
    } else {
      assert t[0] == '\U{2705}';
    }
    assert t[..|SeverePrefix|][0] == t[0] && t[..|SeverePrefix|][8] == t[8];
  }

  /** nircmd's callback writes the fatal text exactly when the error message contains `not found`. */
  lemma EjectTextFatalIff(r: EjectResult)
    ensures EjectText(r) == EjectNotFoundText <==> r.EjectFailed? && exists i :: OccursAt(r.message, "not found", i)
  {
    assert EjectedText[0] != EjectNotFoundText[0];
    assert EjectWarningText[0] != EjectNotFoundText[0];
    if r.EjectFailed? {
      ContainsIff(r.message, "not found");
    }
  }

  /** The progress status names the folder and ends with the last line of the
      trimmed chunk, which is the whole chunk when it has one line; it starts
      neither like the stop notice nor like a severe failure, so a chunk that
      arrives after /api/stop replaces the stop notice. */
  lemma ProgressStatusShape(folder: string, data: string)
    ensures var st, line := ProgressStatus(folder, data), LastLine(Trim(data));
      && Contains(st, folder)
      && |line| <= |st| && st[|st| - |line|..] == line && NoNewline(line)
      && (NoNewline(Trim(data)) ==> line == Trim(data))
      && st[0] != Stopping[0] && st[0] != SeverePrefix[0]
  {
    var st, line := ProgressStatus(folder, data), LastLine(Trim(data));
    assert st[0] == 'C';
    assert Stopping[0] == 'D';
    assert SeverePrefix[0] == '\U{274C}';
    assert st[9..9 + |folder|] == folder;
    assert OccursAt(st, folder, 9);
    ContainsIff(st, folder);
    LastLineShape(Trim(data));
    if NoNewline(Trim(data)) {
      LastLineOfOneLine(Trim(data));
    }
  }

  /** Launching a copy asks no drive for its media and ends with robocopy
      started for the target folder. */
  lemma LaunchEffectsShape(drive: string, cdLabel: string, folder: string, folderExists: bool)
    ensures var effects := LaunchEffects(drive, cdLabel, folder, folderExists);
      && |effects| >= 2 && effects[|effects| - 1] == RunCommand(Robocopy(drive, TargetDir + folder))
      && forall d :: RunCommand(MediaQuery(d)) !in effects
  {
  }

  /** A drive's check begins with its media query and asks no other drive; it
      ends with robocopy launched for the probe's folder when the drive holds a
      disc, and with nothing more when it does not. */
  lemma CheckEffectsShape(drive: string, p: Probe)
    ensures var effects := CheckEffects(drive, p);
      && |effects| >= 1 && effects[0] == RunCommand(MediaQuery(drive))
      && (forall d :: RunCommand(MediaQuery(d)) in effects ==> d == drive)
      && (IsMediaLoaded(p.media) ==> RunCommand(Robocopy(drive, TargetDir + SlotFolder(p))) in effects)
      && (!IsMediaLoaded(p.media) ==> effects == [RunCommand(MediaQuery(drive))])
  {
    if IsMediaLoaded(p.media) {
      var launch := LaunchEffects(drive, SlotLabel(p), SlotFolder(p), p.folderExists);
      LaunchEffectsShape(drive, SlotLabel(p), SlotFolder(p), p.folderExists);
      assert CheckEffects(drive, p) == [RunCommand(MediaQuery(drive)), RunCommand(LabelQuery(drive))] + launch;
    }
  }

  /** A pass always begins by asking drive A; it asks drive B exactly when A
      had no disc; when it stops to wait, robocopy has been launched for the
      drive and folder it waits on; and with both drives empty it only asks. */
  lemma PassEffectsMeaning(a: Probe, b: Probe)
    ensures var effects := PassEffects(a, b);
      && |effects| >= 1 && effects[0] == RunCommand(MediaQuery(DriveA))
      && (RunCommand(MediaQuery(DriveB)) in effects <==> !IsMediaLoaded(a.media))
      && (PassPhase(a, b).Copying? ==>
            RunCommand(Robocopy(PassPhase(a, b).drive, TargetDir + PassPhase(a, b).folder)) in effects)
      && (!IsMediaLoaded(a.media) && !IsMediaLoaded(b.media) ==>
            effects == [RunCommand(MediaQuery(DriveA)), RunCommand(MediaQuery(DriveB))])
  {
    var checkA, checkB := CheckEffects(DriveA, a), CheckEffects(DriveB, b);
    CheckEffectsShape(DriveA, a);
    CheckEffectsShape(DriveB, b);
    if IsMediaLoaded(a.media) {
      assert PassEffects(a, b) == checkA;
      assert DriveA[0] != DriveB[0];
    } else {
      assert PassEffects(a, b) == [RunCommand(MediaQuery(DriveA))] + checkB;
    }
  }

  // ---------------------------------------------------------------------
  // The server's state
  // ---------------------------------------------------------------------

  class Server {
    var isRunning: bool
    var currentStatus: string
    var lastCopyInfo: string
    var currentCDName: string
    /** The calls out of the process so far. */
    var trace: seq<Effect>
    /** Where the copy loop is; while robocopy runs, the drive and folder its
        close handler has captured. */
    var phase: Phase
    /** The drives the current (or last) pass has checked, in order. */
    ghost var passDrives: seq<string>
    /** Ejects launched whose callback has not run yet. */
    ghost var pendingEjects: nat

    /** `currentCDName` keeps its initial value; a pass checks drive A, then
        drive B, and while robocopy runs it runs for the drive checked last. */
    ghost predicate Consistent()
      reads this
    {
      && currentCDName == NoCdName
      && (passDrives == [] || passDrives == [DriveA] || passDrives == [DriveA, DriveB])
      && (phase.Copying? ==> passDrives != [] && phase.drive == passDrives[|passDrives| - 1])
    }

    /** The state between two events: besides being consistent, a pass that is
        not waiting for robocopy has either not begun or checked both drives. */
    ghost predicate Valid()
      reads this
    {
      Consistent() && (phase.Idle? ==> passDrives != [DriveA])
    }

    constructor ()
      ensures Valid() && !isRunning && phase == Idle && pendingEjects == 0
      ensures currentStatus == InitialStatus && lastCopyInfo == "" && currentCDName == NoCdName && trace == []
    {
      isRunning := false;
      currentStatus := InitialStatus;
      lastCopyInfo := "";
      currentCDName := NoCdName;
      trace := [];
      phase := Idle;
      passDrives := [];
      pendingEjects := 0;
    }

    /** `checkAndCopy(drive)` up to the point where it waits for robocopy, or
        resolves because the drive is empty. */
    method CheckAndCopy(drive: string, p: Probe) returns (launched: bool)
      requires Consistent() && phase == Idle
      requires (passDrives == [] && drive == DriveA) || (passDrives == [DriveA] && drive == DriveB)
      modifies this
      ensures passDrives == old(passDrives) + [drive]
      ensures isRunning == old(isRunning) && pendingEjects == old(pendingEjects) && currentCDName == old(currentCDName)
      ensures launched == IsMediaLoaded(p.media)
      ensures trace == old(trace) + CheckEffects(drive, p)
      ensures !launched ==> phase == Idle && currentStatus == old(currentStatus) && lastCopyInfo == old(lastCopyInfo)
      ensures launched ==> && phase == Copying(drive, SlotFolder(p))
                           && lastCopyInfo == ProcessingInfo(SlotLabel(p), SlotFolder(p), drive)
                           && currentStatus == lastCopyInfo
      ensures Consistent() && (launched || drive == DriveB ==> Valid())
    {
      passDrives := passDrives + [drive];
      ghost var before := trace;
      trace := trace + [RunCommand(MediaQuery(drive))];
      if !IsMediaLoaded(p.media) {
        return false;
      }
      ReadLabelAndCopy(drive, p);
      AppendAssociates(before, [RunCommand(MediaQuery(drive))], [RunCommand(LabelQuery(drive))],
                       LaunchEffects(drive, SlotLabel(p), SlotFolder(p), p.folderExists));
      launched := true;
    }

    /** The part of `checkAndCopy` after a disc was found: read its label,
        name the folder after the clock and the label, and start the copy. */
    method ReadLabelAndCopy(drive: string, p: Probe)
      requires Consistent() && phase == Idle && passDrives != [] && drive == passDrives[|passDrives| - 1]
      modifies this
      ensures Valid() && passDrives == old(passDrives)
      ensures isRunning == old(isRunning) && pendingEjects == old(pendingEjects)
      ensures trace == old(trace) + [RunCommand(LabelQuery(drive))] + LaunchEffects(drive, SlotLabel(p), SlotFolder(p), p.folderExists)
      ensures phase == Copying(drive, SlotFolder(p))
      ensures lastCopyInfo == ProcessingInfo(SlotLabel(p), SlotFolder(p), drive) && currentStatus == lastCopyInfo
    {
      trace := trace + [RunCommand(LabelQuery(drive))];
      var cdLabel := VolumeLabel(p.labelQuery, p.labelMillis);
      var timestamp := Timestamp(p.clock);
      var targetFolder := LabelFolderName(timestamp, cdLabel);
      BeginCopy(drive, cdLabel, targetFolder, p.folderExists);
    }

    /** The rest of `checkAndCopy` once the label and folder are known: report
        the disc, create the folder if needed, log the copy and launch robocopy. */
    method BeginCopy(drive: string, cdLabel: string, folder: string, folderExists: bool)
      requires Consistent() && phase == Idle && passDrives != [] && drive == passDrives[|passDrives| - 1]
      modifies this
      ensures Valid() && passDrives == old(passDrives)
      ensures isRunning == old(isRunning) && pendingEjects == old(pendingEjects)
      ensures trace == old(trace) + LaunchEffects(drive, cdLabel, folder, folderExists)
      ensures phase == Copying(drive, folder)
      ensures lastCopyInfo == ProcessingInfo(cdLabel, folder, drive) && currentStatus == lastCopyInfo
    {
      var targetPath := TargetDir + folder;
      lastCopyInfo := ProcessingInfo(cdLabel, folder, drive);
      currentStatus := lastCopyInfo;
      if !folderExists {
        trace := trace + [MakeDir(targetPath)];
      }
      trace := trace + [AppendLog(CopyLogEntry(cdLabel, folder, drive, targetPath))];
      trace := trace + [RunCommand(Robocopy(drive, targetPath))];
      phase := Copying(drive, folder);
    }

    /** The end of a pass: reschedule if the flag is still set. */
    method FinishPass() returns (scheduled: bool)
      requires phase == Idle && passDrives == [DriveA, DriveB]
      modifies this`currentStatus
      ensures scheduled == isRunning
      ensures currentStatus == if isRunning then WaitingStatus(lastCopyInfo) else PassFinished
    {
      if isRunning {
        currentStatus := WaitingStatus(lastCopyInfo);
        scheduled := true;
      } else {
        currentStatus := PassFinished;
        scheduled := false;
      }
    }

    /** Drive B's check once drive A's cycle has resolved, then the end of
        the pass if B had no disc. */
    method ContinueWithB(b: Probe) returns (scheduled: bool)
      requires Consistent() && phase == Idle && passDrives == [DriveA]
      modifies this
      ensures Valid() && passDrives == [DriveA, DriveB]
      ensures isRunning == old(isRunning) && pendingEjects == old(pendingEjects)
      ensures trace == old(trace) + CheckEffects(DriveB, b)
      ensures IsMediaLoaded(b.media) ==> && !scheduled && phase == Copying(DriveB, SlotFolder(b))
                                         && lastCopyInfo == ProcessingInfo(SlotLabel(b), SlotFolder(b), DriveB)
                                         && currentStatus == lastCopyInfo
      ensures !IsMediaLoaded(b.media) ==> && phase == Idle && scheduled == isRunning
                                          && lastCopyInfo == old(lastCopyInfo)
                                          && currentStatus == if isRunning then WaitingStatus(lastCopyInfo) else PassFinished
    {
      var launched := CheckAndCopy(DriveB, b);
      scheduled := false;
      if !launched {
        scheduled := FinishPass();
      }
    }

    /** `monitorLoop`, entered from `startCopyProcess` or from the timer: stop
        if the flag is clear, otherwise check drive A and, if A is empty, drive B. */
    method MonitorLoop(a: Probe, b: Probe) returns (scheduled: bool)
      requires Valid() && phase == Idle
      modifies this
      ensures Valid() && isRunning == old(isRunning) && pendingEjects == old(pendingEjects)
      ensures !isRunning ==> && !scheduled && phase == Idle && trace == old(trace)
                             && currentStatus == StoppedManually && lastCopyInfo == old(lastCopyInfo)
      ensures isRunning ==> && trace == old(trace) + PassEffects(a, b)
                            && phase == PassPhase(a, b) && (scheduled <==> phase == Idle)
                            && passDrives == (if IsMediaLoaded(a.media) then [DriveA] else [DriveA, DriveB])
                            && lastCopyInfo == PassInfo(a, b, old(lastCopyInfo))
                            && currentStatus == if scheduled then WaitingStatus(lastCopyInfo) else lastCopyInfo
    {
      if !isRunning {
        currentStatus := StoppedManually;
        return false;
      }
      scheduled := Scan(a, b);
    }

    /** The body of a pass that found the flag set. */
    method Scan(a: Probe, b: Probe) returns (scheduled: bool)
      requires Valid() && phase == Idle && isRunning
      modifies this
      ensures Valid() && isRunning == old(isRunning) && pendingEjects == old(pendingEjects)
      ensures && trace == old(trace) + PassEffects(a, b)
              && phase == PassPhase(a, b) && (scheduled <==> phase == Idle)
              && passDrives == (if IsMediaLoaded(a.media) then [DriveA] else [DriveA, DriveB])
              && lastCopyInfo == PassInfo(a, b, old(lastCopyInfo))
              && currentStatus == if scheduled then WaitingStatus(lastCopyInfo) else lastCopyInfo
    {
      currentStatus := Scanning;
      passDrives := [];
      ghost var before := trace;
      var launched := CheckAndCopy(DriveA, a);
      scheduled := false;
      if !launched {
        scheduled := ContinueWithB(b);
        ConcatAssociates(before, CheckEffects(DriveA, a), CheckEffects(DriveB, b));
      } else {
        assert PassEffects(a, b) == CheckEffects(DriveA, a) + [];
      }
    }

    /** Robocopy's close event for the drive being copied: classify the exit
        code, launch the eject after a success, and let the pass go on. The
        pass does not wait for the eject: its callback is a later event. */
    method RobocopyClosed(code: int, ejectThrows: bool, b: Probe) returns (scheduled: bool)
      requires Valid() && phase.Copying?
      modifies this
      ensures Valid() && isRunning == old(isRunning)
      ensures pendingEjects == old(pendingEjects) + if LaunchesEject(code, ejectThrows) then 1 else 0
      ensures var drive, info := old(phase).drive, CloseInfo(code, ejectThrows, old(phase).folder);
        var closed := old(trace) + CloseEffects(code, ejectThrows, drive);
        && (drive == DriveB ==> && phase == Idle && trace == closed && lastCopyInfo == info && scheduled == isRunning
                                && currentStatus == if isRunning then WaitingStatus(info) else PassFinished)
        && (drive == DriveA ==> && passDrives == [DriveA, DriveB] && trace == closed + CheckEffects(DriveB, b)
                                && (IsMediaLoaded(b.media) ==>
                                      (!scheduled && phase == Copying(DriveB, SlotFolder(b))
                                       && lastCopyInfo == ProcessingInfo(SlotLabel(b), SlotFolder(b), DriveB)
                                       && currentStatus == lastCopyInfo))
                                && (!IsMediaLoaded(b.media) ==>
                                      (phase == Idle && lastCopyInfo == info && scheduled == isRunning
                                       && currentStatus == if isRunning then WaitingStatus(info) else PassFinished)))
    {
      var drive := phase.drive;
      CloseCopy(code, ejectThrows);
      if drive == DriveA {
        scheduled := ContinueWithB(b);
      } else {
        scheduled := FinishPass();
      }
    }

    /** The first half of robocopy's close handler: report the outcome and,
        after a success, launch the eject. */
    method CloseCopy(code: int, ejectThrows: bool)
      requires Valid() && phase.Copying?
      modifies this
      ensures Consistent() && phase == Idle && passDrives == old(passDrives)
      ensures isRunning == old(isRunning)
      ensures pendingEjects == old(pendingEjects) + if LaunchesEject(code, ejectThrows) then 1 else 0
      ensures trace == old(trace) + CloseEffects(code, ejectThrows, old(phase).drive)
      ensures lastCopyInfo == CloseInfo(code, ejectThrows, old(phase).folder) && currentStatus == lastCopyInfo
    {
      var drive, folder := phase.drive, phase.folder;
      if IsCopySuccess(code) {
        lastCopyInfo := CopiedInfo(folder);
        currentStatus := lastCopyInfo;
        if ejectThrows {
          lastCopyInfo := EjectLaunchFailedText;
          currentStatus := lastCopyInfo;
        } else {
          trace := trace + [RunCommand(Eject(drive))];
          pendingEjects := pendingEjects + 1;
        }
      } else {
        lastCopyInfo := SevereInfo(code, folder);
        currentStatus := lastCopyInfo;
      }
      phase := Idle;
    }

    /** A chunk of robocopy's standard output while it copies: the status shows
        the folder and the last line of the chunk; `lastCopyInfo` keeps its text. */
    method RobocopyOutput(data: string)
      requires Valid() && phase.Copying?
      modifies this`currentStatus
      ensures currentStatus == ProgressStatus(phase.folder, data)
    {
      currentStatus := "Copiando " + phase.folder + "... " + LastLine(Trim(data));
    }

    /** nircmd's callback: only the two status texts change. */
    method EjectCallback(r: EjectResult)
      requires Valid() && pendingEjects > 0
      modifies this`lastCopyInfo, this`currentStatus, this`pendingEjects
      ensures Valid() && pendingEjects == old(pendingEjects) - 1
      ensures lastCopyInfo == EjectText(r) && currentStatus == lastCopyInfo
    {
      match r {
        case EjectSucceeded =>
          lastCopyInfo := EjectedText;
        case EjectFailed(message) =>
          if Contains(message, "not found") {
            lastCopyInfo := EjectNotFoundText;
          } else {
            lastCopyInfo := EjectWarningText;
          }
      }
      currentStatus := lastCopyInfo;
      pendingEjects := pendingEjects - 1;
    }

    /** `startCopyProcess`: nothing if already running; otherwise set the flag,
        write the session header and enter `monitorLoop`. */
    method StartCopyProcess(localTime: string, a: Probe, b: Probe) returns (scheduled: bool)
      requires Valid()
      modifies this
      ensures Valid() && isRunning && pendingEjects == old(pendingEjects)
      ensures old(isRunning) ==> && !scheduled && trace == old(trace) && phase == old(phase)
                                 && currentStatus == old(currentStatus) && lastCopyInfo == old(lastCopyInfo)
      ensures !old(isRunning) && old(phase) == Idle ==>
                && trace == old(trace) + [AppendLog(SessionHeader(localTime))] + PassEffects(a, b)
                && phase == PassPhase(a, b) && (scheduled <==> phase == Idle)
                && lastCopyInfo == PassInfo(a, b, old(lastCopyInfo))
                && currentStatus == if scheduled then WaitingStatus(lastCopyInfo) else lastCopyInfo
      ensures !old(isRunning) && old(phase).Copying? ==>
                && !scheduled && phase == old(phase) && trace == old(trace) + [AppendLog(SessionHeader(localTime))]
                && currentStatus == old(currentStatus) && lastCopyInfo == old(lastCopyInfo)
    {
      if isRunning {
        return false;
      }
      isRunning := true;
      trace := trace + [AppendLog(SessionHeader(localTime))];
      scheduled := false;
      if phase == Idle {
        scheduled := MonitorLoop(a, b);
      }
    }

    /** POST /api/start. */
    method ApiStart(localTime: string, a: Probe, b: Probe) returns (reply: Reply, scheduled: bool)
      requires Valid()
      modifies this
      ensures Valid() && isRunning && pendingEjects == old(pendingEjects)
      ensures old(isRunning) ==> && reply == AlreadyRunning && !scheduled && trace == old(trace) && phase == old(phase)
                                 && currentStatus == old(currentStatus) && lastCopyInfo == old(lastCopyInfo)
      ensures !old(isRunning) ==> reply == Started
      ensures !old(isRunning) && old(phase) == Idle ==>
                && trace == old(trace) + [AppendLog(SessionHeader(localTime))] + PassEffects(a, b)
                && phase == PassPhase(a, b) && (scheduled <==> phase == Idle)
                && lastCopyInfo == PassInfo(a, b, old(lastCopyInfo))
                && currentStatus == if scheduled then WaitingStatus(lastCopyInfo) else lastCopyInfo
      ensures !old(isRunning) && old(phase).Copying? ==>
                && !scheduled && phase == old(phase) && trace == old(trace) + [AppendLog(SessionHeader(localTime))]
                && currentStatus == old(currentStatus) && lastCopyInfo == old(lastCopyInfo)
    {
      if isRunning {
        return AlreadyRunning, false;
      }
      scheduled := StartCopyProcess(localTime, a, b);
      reply := Started;
    }

    /** POST /api/stop: clears the flag; the pass in progress runs to its end. */
    method ApiStop() returns (reply: Reply)
      requires Valid()
      modifies this`isRunning, this`currentStatus
      ensures Valid() && !isRunning && reply.success
      ensures !old(isRunning) ==> reply == AlreadyStopped && currentStatus == old(currentStatus)
      ensures old(isRunning) ==> reply == StopSent && currentStatus == Stopping
    {
      if !isRunning {
        return AlreadyStopped;
      }
      isRunning := false;
      currentStatus := Stopping;
      reply := StopSent;
    }

    /** GET /api/status. */
    method ApiStatus() returns (s: StatusReply)
      requires Valid()
      ensures s.running == isRunning && s.status == currentStatus
      ensures s.cdName == "N/A"
    {
      s := StatusReply(isRunning, currentStatus, currentCDName);
    }
  }

  /** A fresh server started with a disc in drive A: the reply is a success,
      the copy of A's disc is under way and /api/status reports it running. */
  method StartScenario(a: Probe, b: Probe, t: string)
    requires IsMediaLoaded(a.media)
  {
    var s := new Server();
    var reply, scheduled := s.ApiStart(t, a, b);
    assert reply == Started && !scheduled;
    assert s.phase == Copying(DriveA, SlotFolder(a));
    var status := s.ApiStatus();
    assert status.running;
  }

  /** Stop arrives while drive A's disc is being copied: drive B is still checked, the pass ends
      without rescheduling, a second stop changes nothing, and the eject
      callback still reports afterwards. */
  method StopDuringCopyScenario(s: Server, folder: string, b: Probe)
    requires s.Valid() && s.isRunning && s.phase == Copying(DriveA, folder) && !IsMediaLoaded(b.media)
    modifies s
  {
    var stop := s.ApiStop();
    assert stop == StopSent && s.phase.Copying?;
    var scheduled := s.RobocopyClosed(3, false, b);
    assert !scheduled && s.passDrives == [DriveA, DriveB] && s.currentStatus == PassFinished;
    assert s.pendingEjects > 0;
    var again := s.ApiStop();
    assert again == AlreadyStopped && s.currentStatus == PassFinished;
    s.EjectCallback(EjectSucceeded);
    var status := s.ApiStatus();
    assert !status.running && status.status == EjectedText;
  }

  /** A progress chunk that arrives after /api/stop replaces the stop notice. */
  method ProgressAfterStopScenario(s: Server, chunk: string)
    requires s.Valid() && s.isRunning && s.phase.Copying?
    modifies s
  {
    var stop := s.ApiStop();
    assert s.currentStatus == Stopping;
    s.RobocopyOutput(chunk);
    ProgressStatusShape(s.phase.folder, chunk);
    assert s.currentStatus != Stopping;
  }
}
