/**
  The disc screen: a banner read stepped one frame at a time while the drive is in bypass, the
  buttons that start and abandon it, and the enumeration thread that must stay off the drive
  meanwhile. The model stops when something boots.
 */
module DiscScreen {
  const TIMEOUT_FRAMES: int := 900
  const RETRY_FRAMES: int := 15
  const LID_OPEN_FRAMES: int := 8
  const MAX_FST: int := 0x100000

  datatype ScreenState = Ready | Reading | NoDisc

  /** What the drive and the card answer during one frame. */
  datatype Drive = Drive(
    busy: bool, failed: bool, discMagic: bool, fastOffset: nat, fstSize: nat, slowOffset: nat,
    bannerMagic: bool, coverOpen: bool, sameFolder: bool, scanCut: bool)

  datatype Stick = Still | Down | Up

  datatype Buttons = Buttons(a: bool, b: bool, z: bool, start: bool, stick: Stick)

  /** What the browser shows when the buttons are looked at. */
  datatype Browser = Browser(
    onGame: bool,         // the start submenu of a selected game is up, not the list
    inTransition: bool, atRoot: bool, onDirectory: bool, onEntry: bool,
    driveIsOde: bool, canBoot: bool,
    downReads: bool, upReads: bool) // whether that move scrolls and loads banners from files

  /** At most one button goes down, or the stick is moved, in the frame. */
  predicate OneEdge(p: Buttons) {
    (if p.a then 1 else 0) + (if p.b then 1 else 0) + (if p.z then 1 else 0) + (if p.start then 1 else 0)
    + (if p.stick != Still then 1 else 0) <= 1
  }

  predicate StickReads(p: Buttons, w: Browser) {
    (p.stick == Down && w.downReads) || (p.stick == Up && w.upReads)
  }

  /**
    Whether what is pressed puts the drive or the file layer to use: B leaving a folder, A entering
    one, START booting, and a move of the stick over the list that loads banners.
   */
  predicate Uses(p: Buttons, w: Browser) {
    if p.b && !w.inTransition then (if w.onGame then StickReads(p, w) else !w.atRoot)
    else if w.onGame then p.start && w.canBoot
    else if p.a && w.onEntry && !w.inTransition then w.onDirectory || (p.start && w.canBoot)
    else StickReads(p, w)
  }

  /** The Z branch does not return, so what is pressed with it still acts on the same frame, in bypass. */
  predicate Clashes(p: Buttons, w: Browser) { p.z && !w.driveIsOde && Uses(p, w) }

  /** The read gives up: out of time, or the drive's answer to a read of the disc is no use. */
  predicate Fails(frames: int, step: int, d: Drive) {
    || frames >= 900
    || (step == 2 && !d.busy && (d.failed || !d.discMagic || !HasOffset(d)))
    || (step == 3 && !d.busy && (d.failed || !d.bannerMagic))
    || (step == 4 && !d.busy && d.failed)
  }

  /** The banner is found in the table, or in a file table of at most 1 MB. */
  predicate HasOffset(d: Drive) { d.fastOffset != 0 || (d.fstSize <= 0x100000 && d.slowOffset != 0) }

  /** A genuine disc in a drive that is up to speed. */
  predicate Good(d: Drive) { !d.failed && d.discMagic && HasOffset(d) && d.bannerMagic }

  function Answers(drives: seq<Drive>): nat {
    if drives == [] then 0 else (if drives[0].busy then 0 else 1) + Answers(drives[1..])
  }

  /** What a read asks the drive for. */
  datatype Request = DiscId | Header | BannerHead(offset: nat) | Banner(offset: nat)

  lemma OneEdgeNeverClashes(p: Buttons, w: Browser)
    requires OneEdge(p)
    ensures !Clashes(p, w)
  {
  }

  class Screen {
    var dbrStep: int
    var dbrRetry: int
    var dbrFrames: int
    var dbrOffset: nat
    var bypass: bool
    var discMode: bool
    var reading: bool
    var state: ScreenState
    var lidOpened: bool
    var lidFrames: int
    var enumRunning: bool
    var scanComplete: bool
    var entries: bool            // the list of the current folder is not empty
    var booted: bool

    ghost var enters: nat        // times the drive was taken into bypass
    ghost var exits: nat         // times it was handed back
    ghost var polls: nat         // polls of the current read
    ghost var bannerChecked: bool
    ghost var asked: seq<Request> // what the current read has asked the drive for
    ghost var fileInBypass: bool // the file layer was used while the drive was in bypass

    ghost predicate Exclusive()
      reads this
    {
      (bypass ==> !enumRunning && !booted) && !fileInBypass
    }

    ghost predicate Valid()
      reads this
    {
      && (bypass <==> reading) && !fileInBypass
      && (reading ==> discMode && !enumRunning && !booted && 0 <= dbrStep <= 4)
      && (reading <==> state == Reading)
      && (reading ==> polls == dbrFrames <= TIMEOUT_FRAMES && 0 <= dbrRetry)
      && (reading && dbrStep == 4 ==> bannerChecked)
      && (dbrStep == 5 ==> bannerChecked && !reading)
      && (state == Ready ==> dbrStep == 5)
      && (enters > 0 && !reading ==> dbrStep == -1 || dbrStep == 5)
      && enters == exits + (if bypass then 1 else 0)
      && 0 <= lidFrames
    }

    constructor ()
      ensures Valid() && !booted && !enumRunning && !discMode && enters == 0
    {
      dbrStep, dbrRetry, dbrFrames, dbrOffset := 0, 0, 0, 0;
      bypass, discMode, reading, state := false, false, false, NoDisc;
      lidOpened, lidFrames := true, 0;
      enumRunning, scanComplete, entries, booted := false, false, false, false;
      enters, exits, polls, bannerChecked, fileInBypass, asked := 0, 0, 0, false, false, [];
    }

    method BypassEnter()
      modifies `bypass, `enters
      ensures bypass && enters == old(enters) + 1
    {
      bypass := true;
      enters := enters + 1;
    }

    method BypassExit()
      modifies `bypass, `exits
      ensures !bypass && exits == old(exits) + 1
    {
      bypass := false;
      exits := exits + 1;
    }

    method Fail() returns (result: int)
      modifies `bypass, `exits, `dbrStep
      ensures !bypass && exits == old(exits) + 1 && dbrStep == -1 && result == -1
    {
      BypassExit();
      dbrStep := -1;
      return -1;
    }

    method BannerCancel()
      modifies `bypass, `exits, `dbrStep
      ensures old(0 <= dbrStep <= 4) ==> !bypass && exits == old(exits) + 1 && dbrStep == -1
      ensures !old(0 <= dbrStep <= 4) ==> bypass == old(bypass) && exits == old(exits) && dbrStep == old(dbrStep)
    {
      if dbrStep < 0 || dbrStep > 4 { return; }
      BypassExit();
      dbrStep := -1;
    }

    method BannerStart()
      modifies `dbrStep, `dbrRetry, `dbrFrames, `dbrOffset, `bypass, `enters, `polls, `bannerChecked, `asked
      ensures dbrStep == 0 && dbrFrames == 0 && dbrRetry == 0 && dbrOffset == 0 && bypass
      ensures enters == old(enters) + 1 && polls == 0 && asked == [] && !bannerChecked
    {
      dbrStep, dbrRetry, dbrFrames, dbrOffset := 0, 0, 0, 0;
      polls, bannerChecked, asked := 0, false, [];
      BypassEnter();
    }

    /** 0 = still working, 1 = banner read, -1 = no readable disc. */
    method BannerPoll(d: Drive) returns (result: int)
      requires 0 <= dbrStep <= 4 && bypass && enters == exits + 1 && polls == dbrFrames <= TIMEOUT_FRAMES && 0 <= dbrRetry
      requires dbrStep == 4 ==> bannerChecked
      modifies `dbrStep, `dbrRetry, `dbrFrames, `dbrOffset, `bypass, `exits, `polls, `bannerChecked, `asked
      ensures polls == dbrFrames == old(polls) + 1
      ensures result == if Fails(old(dbrFrames), old(dbrStep), d) then -1 else if old(dbrStep) == 4 && !d.busy then 1 else 0
      ensures result == -1 ==> dbrStep == -1
      ensures result != -1 ==>
        if old(dbrStep) == 0 then
          if old(dbrRetry) > 0 then dbrStep == 0 && dbrRetry == old(dbrRetry) - 1 else dbrStep == 1 && dbrRetry == 0
        else if old(dbrStep) == 1 && !d.busy && d.failed then dbrStep == 0 && dbrRetry == 15
        else dbrStep == old(dbrStep) + (if d.busy then 0 else 1) && dbrRetry == old(dbrRetry)
      ensures result != -1 ==>
        dbrOffset == if old(dbrStep) == 2 && !d.busy then (if d.fastOffset != 0 then d.fastOffset else d.slowOffset) else old(dbrOffset)
      ensures if result == 0 then bypass && exits == old(exits) && polls <= TIMEOUT_FRAMES else !bypass && exits == old(exits) + 1
      ensures bannerChecked == (old(bannerChecked) || (old(dbrStep) == 3 && dbrStep == 4))
      ensures asked == old(asked) +
        if result == -1 || dbrStep == old(dbrStep) || dbrStep == 0 || dbrStep == 5 then []
        else match dbrStep case 1 => [DiscId] case 2 => [Header] case 3 => [BannerHead(dbrOffset)] case _ => [Banner(dbrOffset)]
    {
      polls := polls + 1;
      dbrFrames := dbrFrames + 1;
      if dbrFrames > TIMEOUT_FRAMES {
        result := Fail();
        return;
      }
      if dbrStep == 0 {
        if dbrRetry > 0 {
          dbrRetry := dbrRetry - 1;
          return 0;
        }
        asked := asked + [DiscId];
        dbrStep := 1;
        return 0;
      } else if dbrStep == 1 {
        if d.busy { return 0; }
        if d.failed {
          dbrRetry := RETRY_FRAMES;
          dbrStep := 0;
          return 0;
        }
        asked := asked + [Header];
        dbrStep := 2;
        return 0;
      } else if dbrStep == 2 {
        if d.busy { return 0; }
        if d.failed || !d.discMagic {
          result := Fail();
          return;
        }
        dbrOffset := d.fastOffset;
        if dbrOffset == 0 {
          if d.fstSize <= MAX_FST { dbrOffset := d.slowOffset; }
          if dbrOffset == 0 {
            result := Fail();
            return;
          }
        }
        asked := asked + [BannerHead(dbrOffset)];
        dbrStep := 3;
        return 0;
      } else if dbrStep == 3 {
        if d.busy { return 0; }
        if d.failed || !d.bannerMagic {
          result := Fail();
          return;
        }
        bannerChecked := true;
        asked := asked + [Banner(dbrOffset)];
        dbrStep := 4;
        return 0;
      } else if dbrStep == 4 {
        if d.busy { return 0; }
        if d.failed {
          result := Fail();
          return;
        }
        BypassExit();
        dbrStep := 5;
        return 1;
      }
      return -1;
    }

    /** Start enumerating, unless already running or the complete list is of this very folder. */
    method StartThread(sameFolder: bool)
      modifies `enumRunning, `scanComplete, `entries
      ensures enumRunning <==> old(enumRunning) || !(old(scanComplete) && old(entries) && sameFolder)
      ensures if enumRunning && !old(enumRunning) then !scanComplete && !entries
              else scanComplete == old(scanComplete) && entries == old(entries)
    {
      if enumRunning { return; }
      if scanComplete && entries && sameFolder { return; }
      enumRunning := true;
      entries := false;
      scanComplete := false;
    }

    /** Stop the thread and wait for it; `cut` is whether its scan was cut short. */
    method DeinitThread(cut: bool)
      modifies `enumRunning, `scanComplete
      ensures !enumRunning
    {
      if enumRunning {
        scanComplete := !cut;
        enumRunning := false;
      }
    }

    /** Moving to another folder: stop any enumeration, then start this one. */
    method Enumerate(d: Drive)
      modifies `enumRunning, `scanComplete, `entries
      ensures enumRunning
    {
      DeinitThread(d.scanCut);
      StartThread(false);
    }

    /** The thread reaching its end on its own, having found entries or not. */
    method ThreadEnds(found: bool)
      requires Valid()
      modifies `enumRunning, `scanComplete, `entries
      ensures Valid()
    {
      if enumRunning {
        entries := found;
        scanComplete := true;
        enumRunning := false;
      }
    }

    /** One frame of the disc screen. */
    method Tick(d: Drive)
      requires Valid() && !booted
      modifies this
      ensures Valid() && booted == old(booted) && discMode == old(discMode)
      ensures state == Ready && old(state) != Ready ==> old(reading) && old(dbrStep) == 4 && old(bannerChecked) && exits == old(exits) + 1
      ensures old(discMode) && old(reading) && reading ==> polls == old(polls) + 1 && enters == old(enters)
      ensures old(discMode) && old(reading) && !reading ==> exits == old(exits) + 1 && enters == old(enters)
      ensures exits >= old(exits)
    {
      if !discMode { return; }
      if reading {
        PollRead(d);
      } else {
        WatchLid(d);
      }
    }

    /** Answers a read still needs from a good drive, and the frames it waits before asking. */
    ghost function Work(): int
      reads this
    {
      if dbrStep == 0 then dbrRetry + 5 else 5 - dbrStep
    }

    /** A frame of a read in flight. */
    method PollRead(d: Drive)
      requires Valid() && !booted && discMode && reading
      modifies this
      ensures Valid() && !booted && discMode && enters == old(enters)
      ensures state == Ready ==> old(dbrStep) == 4 && old(bannerChecked)
      ensures if reading then polls == old(polls) + 1 && exits == old(exits) else exits == old(exits) + 1
      ensures state == if Fails(old(dbrFrames), old(dbrStep), d) then NoDisc
                       else if old(dbrStep) == 4 && !d.busy then Ready else Reading
      ensures Good(d) && old(dbrFrames) < 900 ==>
        Work() == if old(dbrStep) == 0 || !d.busy then old(Work()) - 1 else old(Work())
      ensures reading ==> dbrFrames == old(dbrFrames) + 1
      ensures old(dbrFrames) < 900 && old(dbrStep) == 1 && !d.busy && d.failed ==> dbrStep == 0 && dbrRetry == 15
      ensures old(dbrFrames) < 900 && old(dbrStep) == 0 ==>
        if old(dbrRetry) > 0 then dbrStep == 0 && dbrRetry == old(dbrRetry) - 1 else dbrStep == 1
    {
      var result := BannerPoll(d);
      if result > 0 {
        state := Ready;
        reading := false;
        StartThread(d.sameFolder);
      } else if result < 0 {
        state := NoDisc;
        reading := false;
        StartThread(d.sameFolder);
      }
    }

    /** A frame without one: a lid opened long enough and closed again starts the next read. */
    method WatchLid(d: Drive)
      requires Valid() && !booted && discMode && !reading
      modifies this
      ensures Valid() && !booted && discMode && exits == old(exits)
      ensures reading <==> !d.coverOpen && old(lidOpened)
      ensures if d.coverOpen then lidFrames == old(lidFrames) + 1 && (lidOpened <==> old(lidOpened) || lidFrames >= 8)
              else lidFrames == 0 && !lidOpened
      ensures state == if reading then Reading else old(state)
    {
      if d.coverOpen {
        lidFrames := lidFrames + 1;
        if lidFrames >= LID_OPEN_FRAMES { lidOpened := true; }
      } else {
        lidFrames := 0;
        if lidOpened {
          lidOpened := false;
          DeinitThread(d.scanCut);
          BannerStart();
          state := Reading;
          reading := true;
        }
      }
    }

    /** The buttons on the disc screen: START boots a banner that was read, B always leaves. */
    method DiscInputs(p: Buttons, d: Drive)
      requires Valid() && !booted && discMode
      modifies this
      ensures Valid()
      ensures booted <==> p.start && old(state) == Ready
      ensures booted ==> bannerChecked && dbrStep == 5 && !bypass
      ensures !p.start && p.b ==> !discMode && !reading && (old(reading) ==> exits == old(exits) + 1) && !lidOpened && lidFrames == 0
      ensures !(!p.start && p.b) ==> discMode && reading == old(reading) && exits == old(exits)
    {
      if p.start {
        if state != Ready { return; }
        booted := true;
        return;
      }
      if p.b {
        if reading {
          BannerCancel();
          reading := false;
          state := NoDisc;
          StartThread(d.sameFolder);
        }
        lidOpened := false;
        lidFrames := 0;
        discMode := false;
      }
    }

    /** Z: the thread stands down, the drive goes into bypass, and the disc screen comes up. */
    method ShowDisc(d: Drive)
      requires Valid() && !booted && !discMode
      modifies this
      ensures Valid() && reading && !booted && enters == old(enters) + 1 && exits == old(exits) && !lidOpened
      ensures dbrStep == 0 && Work() == 5 && dbrFrames == 0
    {
      DeinitThread(d.scanCut);
      BannerStart();
      state := Reading;
      reading := true;
      lidOpened := false;
      discMode := true;
    }

    /** The buttons in the browser, in the order the handler looks at them. */
    method BrowserInputs(p: Buttons, w: Browser, d: Drive)
      requires Valid() && !booted && !discMode
      modifies this
      ensures Exclusive() <==> !Clashes(p, w)
      ensures !Clashes(p, w) ==> Valid()
      ensures bypass == reading == discMode == (p.z && !w.driveIsOde)
      ensures enters == old(enters) + (if bypass then 1 else 0) && exits == old(exits)
      ensures lidOpened <==> !bypass && (old(lidOpened) || d.coverOpen)
    {
      if d.coverOpen { lidOpened := true; }
      if p.z {
        if w.driveIsOde { return; }
        ShowDisc(d);
      }
      PressOthers(p, w, d);
    }

    /** What follows the Z branch. */
    method PressOthers(p: Buttons, w: Browser, d: Drive)
      requires !booted && !fileInBypass && (bypass ==> !enumRunning)
      modifies `enumRunning, `scanComplete, `entries, `booted, `fileInBypass
      ensures bypass ==> (enumRunning || booted || fileInBypass <==> Uses(p, w))
      ensures !bypass ==> !fileInBypass
    {
      var onGame, inTransition, onEntry, downReads, upReads := w.onGame, w.inTransition, w.onEntry, w.downReads, w.upReads;
      if p.b {
        if onGame && !inTransition {
          inTransition := true;
          onGame := false;
        } else if !inTransition {
          if !w.atRoot {
            Enumerate(d);
            onEntry, downReads, upReads := false, false, false;
          } else {
            return;
          }
        }
      }
      if p.a && !onGame && onEntry && !inTransition {
        if w.onDirectory {
          Enumerate(d);
          downReads, upReads := false, false;
        } else {
          inTransition := true;
          onGame := true;
        }
      }
      if p.start && onGame {
        if !w.canBoot { return; }
        booted := true;
      }
      if !onGame {
        MoveStick(p.stick, downReads, upReads);
      }
    }

    /** A move over the list; a banner loaded on scroll is read through the file layer. */
    method MoveStick(stick: Stick, downReads: bool, upReads: bool)
      modifies `fileInBypass
      ensures fileInBypass <==> old(fileInBypass) || (bypass && ((stick == Down && downReads) || (stick == Up && upReads)))
    {
      if (stick == Down && downReads) || (stick == Up && upReads) {
        fileInBypass := fileInBypass || bypass;
      }
    }

    /**
      Any run of frames with at most one button going down in each, up to the first boot: the
      drive is in bypass exactly while a banner read is active, and then the disc screen is up and
      no enumeration runs; every entry into bypass has one exit but the current one; a disc boots
      only with a banner read to the end and checked.
     */
    method Run(frames: seq<Frame>)
      requires Valid() && !booted && forall i :: 0 <= i < |frames| ==> OneEdge(frames[i].p)
      modifies this
      ensures Valid() && Exclusive()
      ensures bypass <==> reading
      ensures reading ==> discMode && !enumRunning && enters == exits + 1 && polls <= TIMEOUT_FRAMES
      ensures !reading ==> enters == exits
      ensures booted && discMode ==> bannerChecked && dbrStep == 5
    {
      for i := 0 to |frames|
        invariant Valid() && !booted
      {
        var f := frames[i];
        OneEdgeNeverClashes(f.p, f.w);
        Tick(f.d);
        if discMode {
          DiscInputs(f.p, f.d);
        } else {
          BrowserInputs(f.p, f.w, f.d);
        }
        if booted { return; }
        if f.threadEnds {
          ThreadEnds(f.found);
        }
      }
    }

    /**
      A genuine disc is read: with a good drive that answers often enough before the time is up, the
      screen comes to READY.
     */
    method FinishRead(drives: seq<Drive>) returns (n: nat)
      requires Valid() && !booted && discMode && reading
      requires dbrFrames + |drives| <= 900 && forall i :: 0 <= i < |drives| ==> Good(drives[i])
      requires Answers(drives) >= Work()
      modifies this
      ensures n <= |drives| && Valid() && !booted && discMode && !reading && state == Ready && exits == old(exits) + 1
    {
      n := 0;
      assert drives[0..] == drives;
      while reading
        invariant 0 <= n <= |drives| && Valid() && !booted && discMode
        invariant reading ==> dbrFrames == old(dbrFrames) + n && Answers(drives[n..]) >= Work() && exits == old(exits)
        invariant !reading ==> state == Ready && exits == old(exits) + 1
        decreases |drives| - n
      {
        assert drives[n..][1..] == drives[n + 1..];
        PollRead(drives[n]);
        n := n + 1;
      }
    }

    /** A failed ID read is repeated after exactly 15 frames of waiting. */
    method RetryPace(failing: Drive, drives: seq<Drive>)
      requires Valid() && !booted && discMode && reading && dbrStep == 1 && !failing.busy && failing.failed
      requires |drives| == 16 && dbrFrames + 17 <= 900
      modifies this
      ensures Valid() && reading && dbrStep == 1
    {
      PollRead(failing);
      for i := 0 to 16
        invariant Valid() && !booted && discMode && reading && dbrFrames == old(dbrFrames) + 1 + i
        invariant if i <= 15 then dbrStep == 0 && dbrRetry == 15 - i else dbrStep == 1
      {
        PollRead(drives[i]);
      }
    }

    /** Whatever the drive answers, 901 frames of the disc screen see the current read end. */
    method ReadEnds(drives: seq<Drive>)
      requires Valid() && !booted && discMode && reading && |drives| == 901
      modifies this
      ensures Valid() && exits > old(exits)
    {
      for i := 0 to |drives|
        invariant Valid() && !booted && discMode
        invariant exits >= old(exits)
        invariant exits == old(exits) ==> reading && polls >= i
      {
        Tick(drives[i]);
      }
    }
  }

  datatype Frame = Frame(p: Buttons, w: Browser, d: Drive, threadEnds: bool, found: bool)
}
