/** The console copier: the operator types a base name once, and every disc
    found in drive A or drive B is copied to `baseName + counter`, the counter
    starting at 101 and advancing only when a copy succeeded and the tray opened. */
module ConsoleCopier {
  import opened Text
  import opened Environment
  import opened Naming

  const InitialCounter: nat := 101

  /** What the environment answers during one drive's cycle: the media query,
      whether the target folder already exists, robocopy's exit code and
      whether the eject command returned without an error. */
  datatype Slot = Slot(media: QueryResult, folderExists: bool, code: int, ejectOk: bool)

  /** The log line written before a disc is copied. */
  function CopyLogEntry(counter: nat, drive: string, targetPath: string): string {
    "--- Copiando Disco " + NatToString(counter) + " de " + drive + " a " + targetPath + " ---\n"
  }

  /** The calls `checkAndCopy` makes once it found a disc: create the folder
      if needed, log the copy, run robocopy, and eject after a success. */
  function CopyEffects(drive: string, targetPath: string, counter: nat, slot: Slot): seq<Effect> {
    (if slot.folderExists then [] else [MakeDir(targetPath)])
    + [AppendLog(CopyLogEntry(counter, drive, targetPath)), RunCommand(Robocopy(drive, targetPath))]
    + (if IsCopySuccess(slot.code) then [RunCommand(Eject(drive))] else [])
  }

  /** Everything one `checkAndCopy` does outside the process, in order. */
  function CycleEffects(drive: string, baseName: string, counter: nat, slot: Slot): seq<Effect> {
    [RunCommand(MediaQuery(drive))]
    + if !IsMediaLoaded(slot.media) then []
      else CopyEffects(drive, TargetDir + CounterFolderName(baseName, counter), counter, slot)
  }

  /** A cycle that found a disc, copied it with a success code and opened the tray. */
  predicate FullySuccessful(slot: Slot) {
    IsMediaLoaded(slot.media) && IsCopySuccess(slot.code) && slot.ejectOk
  }

  /** Without a disc a cycle only asks the drive: no folder, no log line, no copy, no eject.
      With one, the tray is opened exactly when the exit code is at most 8, and the
      copy goes to the folder named after the current counter. */
  lemma CycleEffectsMeaning(drive: string, baseName: string, counter: nat, slot: Slot)
    ensures var effects := CycleEffects(drive, baseName, counter, slot);
      && (!IsMediaLoaded(slot.media) ==> effects == [RunCommand(MediaQuery(drive))])
      && (RunCommand(Eject(drive)) in effects <==> IsMediaLoaded(slot.media) && IsCopySuccess(slot.code))
      && (IsMediaLoaded(slot.media) ==>
            RunCommand(Robocopy(drive, TargetDir + CounterFolderName(baseName, counter))) in effects)
  {
    var effects := CycleEffects(drive, baseName, counter, slot);
    var eject := RunCommand(Eject(drive));
    var path := TargetDir + CounterFolderName(baseName, counter);
    if IsMediaLoaded(slot.media) && !IsCopySuccess(slot.code) {
      assert effects == [RunCommand(MediaQuery(drive))]
        + (if slot.folderExists then [] else [MakeDir(path)])
        + [AppendLog(CopyLogEntry(counter, drive, path)), RunCommand(Robocopy(drive, path))];
    }
  }

  class Copier {
    var baseName: string
    var counter: nat
    /** The calls out of the process so far. */
    var trace: seq<Effect>
    /** The monitoring loop has been started. */
    ghost var monitoring: bool
    /** The folders of the cycles that copied and ejected, in order. */
    ghost var copied: seq<string>

    /** The counter is 101 plus the number of fully successful cycles, and the
        k-th such cycle used the folder named after 101 + k. */
    ghost predicate Valid()
      reads this
    {
      && counter == InitialCounter + |copied|
      && (forall k :: 0 <= k < |copied| ==> copied[k] == CounterFolderName(baseName, InitialCounter + k))
      && (monitoring ==> baseName != [])
      && (!monitoring ==> copied == [])
    }

    constructor ()
      ensures Valid() && !monitoring
      ensures baseName == [] && counter == InitialCounter && trace == [] && copied == []
    {
      baseName := [];
      counter := InitialCounter;
      trace := [];
      monitoring := false;
      copied := [];
    }

    /** `start`: asks for the base name until a non-blank answer arrives, then
        writes the session header and starts monitoring. `answers` are the
        operator's replies in order; `rejected` is how many were blank. If all
        of them are blank the prompt is still waiting and nothing has started. */
    method Start(answers: seq<string>, targetDirExists: bool, localTime: string) returns (rejected: nat)
      requires Valid() && !monitoring
      modifies this
      ensures Valid()
      ensures rejected <= |answers|
      ensures forall k :: 0 <= k < rejected ==> AllSpace(answers[k])
      ensures monitoring <==> rejected < |answers|
      ensures rejected < |answers| ==> !AllSpace(answers[rejected])
      ensures monitoring ==>
                && baseName == Trim(answers[rejected])
                && trace == old(trace) + (if targetDirExists then [] else [MakeDir(TargetDir)])
                                       + [AppendLog(SessionHeader(localTime))]
      ensures !monitoring ==> trace == old(trace) && baseName == if answers == [] then old(baseName) else []
      ensures counter == old(counter) && copied == old(copied)
    {
      rejected := 0;
      while rejected < |answers|
        invariant rejected <= |answers|
        invariant forall k :: 0 <= k < rejected ==> AllSpace(answers[k])
        invariant baseName == if rejected == 0 then old(baseName) else []
        invariant trace == old(trace) && !monitoring && counter == old(counter) && copied == old(copied)
      {
        var answer := Trim(answers[rejected]);
        TrimEmptyIff(answers[rejected]);
        if answer != [] {
          OpenSession(answer, targetDirExists, localTime);
          return;
        }
        baseName := answer;
        rejected := rejected + 1;
      }
    }

    /** The part of `start` after a non-blank answer: keep it as the base name,
        create the target directory if it is missing, log the session header
        and start monitoring. */
    method OpenSession(name: string, targetDirExists: bool, localTime: string)
      requires Valid() && !monitoring && name != []
      modifies this
      ensures Valid() && monitoring && baseName == name
      ensures trace == old(trace) + (if targetDirExists then [] else [MakeDir(TargetDir)])
                                  + [AppendLog(SessionHeader(localTime))]
      ensures counter == old(counter) && copied == old(copied)
    {
      baseName := name;
      if !targetDirExists {
        trace := trace + [MakeDir(TargetDir)];
      }
      trace := trace + [AppendLog(SessionHeader(localTime))];
      monitoring := true;
    }

    /** `checkAndCopy` for one drive, from the media query to robocopy's close event. */
    method CheckAndCopy(drive: string, slot: Slot)
      requires Valid() && monitoring
      modifies this
      ensures Valid() && monitoring && baseName == old(baseName)
      ensures trace == old(trace) + CycleEffects(drive, baseName, old(counter), slot)
      ensures counter == old(counter) + if FullySuccessful(slot) then 1 else 0
      ensures copied == old(copied) + if FullySuccessful(slot) then [CounterFolderName(baseName, old(counter))] else []
    {
      ghost var before := trace;
      trace := trace + [RunCommand(MediaQuery(drive))];
      if !IsMediaLoaded(slot.media) {
        return;
      }
      ghost var path := TargetDir + CounterFolderName(baseName, counter);
      ghost var count := counter;
      CopyDisc(drive, slot);
      assert trace == before + ([RunCommand(MediaQuery(drive))] + CopyEffects(drive, path, count, slot));
    }

    /** The part of `checkAndCopy` after a disc was found: copy it to the
        folder of the current counter, eject it after a success, and advance
        the counter only when the eject reported no error. */
    method CopyDisc(drive: string, slot: Slot)
      requires Valid() && monitoring
      modifies this
      ensures Valid() && monitoring && baseName == old(baseName)
      ensures trace == old(trace) + CopyEffects(drive, TargetDir + CounterFolderName(baseName, old(counter)), old(counter), slot)
      ensures var advances := IsCopySuccess(slot.code) && slot.ejectOk;
        && counter == old(counter) + (if advances then 1 else 0)
        && copied == old(copied) + if advances then [CounterFolderName(baseName, old(counter))] else []
    {
      var targetFolder := CounterFolderName(baseName, counter);
      var targetPath := TargetDir + targetFolder;
      if !slot.folderExists {
        trace := trace + [MakeDir(targetPath)];
      }
      trace := trace + [AppendLog(CopyLogEntry(counter, drive, targetPath))];
      trace := trace + [RunCommand(Robocopy(drive, targetPath))];
      if IsCopySuccess(slot.code) {
        trace := trace + [RunCommand(Eject(drive))];
        if slot.ejectOk {
          copied := copied + [targetFolder];
          counter := counter + 1;
        }
      }
    }

    /** One pass of `monitorLoop`: drive A's whole cycle, then drive B's; the
        next pass is always scheduled. */
    method MonitorLoop(a: Slot, b: Slot) returns (scheduled: bool)
      requires Valid() && monitoring
      modifies this
      ensures Valid() && monitoring && baseName == old(baseName) && scheduled
      ensures var middle := old(counter) + if FullySuccessful(a) then 1 else 0;
        && trace == old(trace) + CycleEffects(DriveA, baseName, old(counter), a)
                               + CycleEffects(DriveB, baseName, middle, b)
        && counter == middle + (if FullySuccessful(b) then 1 else 0)
        && copied == old(copied) + (if FullySuccessful(a) then [CounterFolderName(baseName, old(counter))] else [])
                                 + (if FullySuccessful(b) then [CounterFolderName(baseName, middle)] else [])
    {
      CheckAndCopy(DriveA, a);
      CheckAndCopy(DriveB, b);
      scheduled := true;
    }
  }

  /** No two fully successful cycles used the same folder, and the folder the
      next disc gets is not the folder of any fully successful cycle. */
  lemma NamesNeverReused(c: Copier)
    requires c.Valid()
    ensures forall i, j :: 0 <= i < j < |c.copied| ==> c.copied[i] != c.copied[j]
    ensures CounterFolderName(c.baseName, c.counter) !in c.copied
  {
    forall i, j | 0 <= i < j < |c.copied| ensures c.copied[i] != c.copied[j] {
      CounterNamesDistinct(c.baseName, InitialCounter + i, InitialCounter + j);
    }
    forall k | 0 <= k < |c.copied| ensures c.copied[k] != CounterFolderName(c.baseName, c.counter) {
      CounterNamesDistinct(c.baseName, InitialCounter + k, c.counter);
    }
  }

  /** A cycle that found a disc but did not fully succeed (robocopy failed, or
      the eject threw) leaves the counter where it was, so the next disc found,
      here the one in drive B in the same pass, is copied into the same folder. */
  lemma FailedCycleReusesFolder(baseName: string, counter: nat, a: Slot, b: Slot)
    requires IsMediaLoaded(a.media) && !FullySuccessful(a) && IsMediaLoaded(b.media)
    ensures var path := TargetDir + CounterFolderName(baseName, counter);
      var next := counter + if FullySuccessful(a) then 1 else 0;
      && RunCommand(Robocopy(DriveA, path)) in CycleEffects(DriveA, baseName, counter, a)
      && RunCommand(Robocopy(DriveB, path)) in CycleEffects(DriveB, baseName, next, b)
  {
    CycleEffectsMeaning(DriveA, baseName, counter, a);
    CycleEffectsMeaning(DriveB, baseName, counter, b);
  }

  /** The operator's first answer in the scenario below is blank. */
  lemma ScenarioBlankAnswer()
    ensures Trim("") == [] && AllSpace("")
  {
  }

  /** The operator's second answer in the scenario below is kept as typed. */
  lemma ScenarioBaseAnswer()
    ensures Trim("CD_ARCHIVE_") == "CD_ARCHIVE_" && !AllSpace("CD_ARCHIVE_")
  {
    var answer := "CD_ARCHIVE_";
    assert !IsJsSpace(answer[0]) && !IsJsSpace(answer[|answer| - 1]);
    assert LeadingSpaces(answer) == 0 && TrimStart(answer) == answer;
    assert ContentEnd(answer) == |answer|;
  }

  /** The first folder of the scenario below. */
  lemma ScenarioFolder()
    ensures CounterFolderName("CD_ARCHIVE_", 101) == "CD_ARCHIVE_101"
  {
    assert NatToString(1) == "1" && NatToString(0) == "0";
    assert NatToString(10) == NatToString(1) + ['0'];
    assert NatToString(101) == NatToString(10) + ['1'];
  }

  /** The media queries of the scenario below. */
  lemma ScenarioMedia()
    ensures IsMediaLoaded(Output("TRUE")) && !IsMediaLoaded(Output(""))
  {
    assert OccursAt("TRUE", "TRUE", 0);
  }

  /** With one blank answer followed by a real one, `start` refuses exactly one. */
  lemma SecondAnswerTaken(answers: seq<string>, rejected: nat)
    requires |answers| == 2 && AllSpace(answers[0]) && !AllSpace(answers[1])
    requires rejected <= |answers| && forall k :: 0 <= k < rejected ==> AllSpace(answers[k])
    requires rejected < |answers| ==> !AllSpace(answers[rejected])
    ensures rejected == 1
  {
  }

  /** The prompt of the scenario: a blank answer is refused, `CD_ARCHIVE_` is taken. */
  method ArchivePromptScenario() returns (c: Copier)
  {
    ScenarioBlankAnswer();
    ScenarioBaseAnswer();
    c := new Copier();
    var answers := ["", "CD_ARCHIVE_"];
    assert answers[0] == "" && answers[1] == "CD_ARCHIVE_";
    var rejected := c.Start(answers, true, "1/1/2024, 10:00:00");
    SecondAnswerTaken(answers, rejected);
    assert c.baseName == "CD_ARCHIVE_" && c.counter == 101;
  }

  /** The first pass of the scenario: a disc in I: that copies with code 0 and
      ejects, J: empty; the disc goes to `CD_ARCHIVE_101` and the counter moves to 102. */
  method ArchivePassScenario(c: Copier)
    requires c.Valid() && c.monitoring && c.baseName == "CD_ARCHIVE_" && c.counter == 101 && c.trace == []
    modifies c
  {
    ScenarioFolder();
    ScenarioMedia();
    var a, b := Slot(Output("TRUE"), false, 0, true), Slot(Output(""), false, 0, true);
    var scheduled := c.MonitorLoop(a, b);
    assert c.counter == 102 && scheduled;
    assert c.copied == ["CD_ARCHIVE_101"];
    var path := TargetDir + "CD_ARCHIVE_101";
    assert c.trace == [RunCommand(MediaQuery(DriveA)), MakeDir(path), AppendLog(CopyLogEntry(101, DriveA, path)),
                       RunCommand(Robocopy(DriveA, path)), RunCommand(Eject(DriveA)),
                       RunCommand(MediaQuery(DriveB))];
  }
}
