/**
 Installing the bundled sidecar: every launch compares the payload's version with what is
 installed and replaces it only by a newer one.
 */
module Upgrade {
  import opened Basics
  import opened Text
  import opened Versions

  /** A sidecar binary of some true version. */
  datatype Binary = Binary(version: string)

  /** A directory with a binary and a VERSION file, either of which may be missing. */
  datatype Tree = Tree(binary: Option<Binary>, versionFile: Option<string>)

  /** What a launch meets: the payload, whether it is the installed directory itself, what the
      installed binary answers when asked for its version ("" when that fails or takes too long), how
      the copying goes, and whether an adopted marker can be written. */
  datatype Launch = Launch(payload: Tree, sameDir: bool, probe: string, copy: Copy, adopts: bool)

  datatype Copy = Complete | FailsBeforeBinary | FailsAfterBinary

  function ReadVersion(t: Tree): string {
    if t.versionFile.Some? then TrimSpace(t.versionFile.value) else ""
  }

  function Answer(l: Launch): string {
    TrimSpace(l.probe)
  }

  /** Whether ensureSidecarInstalled decides to copy. */
  predicate NeedsInstall(installed: Tree, l: Launch) {
    if installed.binary.None? then true
    else if ReadVersion(l.payload) == "" then false
    else if ReadVersion(installed) == "" then
      Answer(l) == "" || Compare(ReadVersion(l.payload), Answer(l)) > 0
    else Compare(ReadVersion(l.payload), ReadVersion(installed)) > 0
  }

  predicate Adopts(installed: Tree, l: Launch) {
    && installed.binary.Some? && ReadVersion(l.payload) != "" && ReadVersion(installed) == ""
    && Answer(l) != "" && !NeedsInstall(installed, l) && l.adopts
  }

  function Copied(installed: Tree, payload: Tree, copy: Copy): Tree {
    match copy
    case FailsBeforeBinary => installed
    case FailsAfterBinary => installed.(binary := payload.binary)
    case Complete =>
      Tree(payload.binary, if ReadVersion(payload) != "" then Some(ReadVersion(payload) + "\n") else installed.versionFile)
  }

  /** One launch: whether it succeeds, and the installed tree afterwards. */
  function Step(installed: Tree, l: Launch): (bool, Tree) {
    if l.payload.binary.None? then (false, installed)
    else if l.sameDir then (true, installed)
    else if NeedsInstall(installed, l) then (l.copy == Complete, Copied(installed, l.payload, l.copy))
    else if Adopts(installed, l) then (true, installed.(versionFile := Some(Answer(l) + "\n")))
    else (true, installed)
  }

  function After(installed: Tree, launches: seq<Launch>): Tree {
    if launches == [] then installed
    else Step(After(installed, launches[..|launches| - 1]), launches[|launches| - 1]).1
  }

  /** The true version of the installed binary. */
  function Version(t: Tree): string {
    if t.binary.Some? then t.binary.value.version else ""
  }

  lemma MarkerReadsBack(t: Tree)
    ensures TrimSpace(ReadVersion(t) + "\n") == ReadVersion(t)
  {
    if t.versionFile.Some? {
      TrimmedLineReadsBack(t.versionFile.value);
    } else {
      TrimmedLineReadsBack("");
    }
  }

  // ---- what one launch leaves ----

  /** A copy is called for: nothing is installed, or the payload has a version and the installed one is
      unknown or older. */
  predicate CopyIsDue(installed: Tree, l: Launch) {
    || installed.binary.None?
    || (ReadVersion(l.payload) != ""
        && (Known(installed, l) == "" || Compare(ReadVersion(l.payload), Known(installed, l)) > 0))
  }

  /** What the launch compares the payload with, or "" if it knows nothing. */
  function Known(installed: Tree, l: Launch): string {
    if ReadVersion(installed) != "" then ReadVersion(installed) else Answer(l)
  }

  /** A launch fails exactly when there is no payload binary, or a copy was due and stopped early; then
      it changes nothing, or the binary alone. */
  lemma LaunchFailsIff(installed: Tree, l: Launch)
    ensures !Step(installed, l).0
      <==> l.payload.binary.None? || (!l.sameDir && CopyIsDue(installed, l) && l.copy != Complete)
    ensures !Step(installed, l).0 && Step(installed, l).1 != installed ==>
      l.copy == FailsAfterBinary && Step(installed, l).1 == installed.(binary := l.payload.binary)
  {
  }

  /** After a successful launch outside the payload's own directory there is a binary. */
  lemma SuccessLeavesBinary(installed: Tree, l: Launch)
    requires Step(installed, l).0 && !l.sameDir
    ensures Step(installed, l).1.binary.Some?
  {
  }

  /** When a due copy completes, the binary is the payload's, and the marker names the payload's version,
      or stays as it was when the payload has none. */
  lemma CopyInstallsPayload(installed: Tree, l: Launch)
    requires l.payload.binary.Some? && !l.sameDir && l.copy == Complete && CopyIsDue(installed, l)
    ensures var (ok, t) := Step(installed, l);
      && ok && t.binary == l.payload.binary
      && ReadVersion(t) == if ReadVersion(l.payload) != "" then ReadVersion(l.payload) else ReadVersion(installed)
  {
    MarkerReadsBack(l.payload);
  }

  /** When none is due, or the payload is the installed directory, the binary stays. */
  lemma NoCopyKeepsBinary(installed: Tree, l: Launch)
    requires l.sameDir || !CopyIsDue(installed, l) || l.payload.binary.None?
    ensures Step(installed, l).1.binary == installed.binary
  {
  }

  /** A successful launch on a machine with no binary installs the payload. */
  lemma CleanInstall(installed: Tree, l: Launch)
    requires installed.binary.None? && !l.sameDir && Step(installed, l).0
    ensures var t := Step(installed, l).1;
      && t.binary == l.payload.binary && t.binary.Some?
      && (ReadVersion(l.payload) != "" ==> ReadVersion(t) == ReadVersion(l.payload))
  {
    CopyInstallsPayload(installed, l);
  }

  /** A payload without a version leaves a marker behind that has outlived its binary. */
  lemma StaleMarkerSurvives(installed: Tree, l: Launch)
    requires installed.binary.None? && ReadVersion(installed) != "" && ReadVersion(l.payload) == ""
    requires l.payload.binary.Some? && !l.sameDir && l.copy == Complete
    ensures var t := Step(installed, l).1; t.binary == l.payload.binary && ReadVersion(t) == ReadVersion(installed)
  {
    CopyInstallsPayload(installed, l);
  }

  /** The binary after any launches is the one before them or one of the payloads'. */
  lemma {:induction false} BinaryComesFromPayload(installed: Tree, launches: seq<Launch>)
    ensures var b := After(installed, launches).binary;
      b == installed.binary || exists i :: 0 <= i < |launches| && launches[i].payload.binary == b
  {
    if launches != [] {
      var init, l := launches[..|launches| - 1], launches[|launches| - 1];
      BinaryComesFromPayload(installed, init);
      var before, after := After(installed, init), After(installed, launches);
      if after.binary == l.payload.binary {
        assert launches[|launches| - 1].payload.binary == after.binary;
      } else {
        assert after.binary == before.binary;
        if i :| 0 <= i < |init| && init[i].payload.binary == before.binary {
          assert launches[i].payload.binary == after.binary;
        }
      }
    }
  }

  predicate AllSucceed(installed: Tree, launches: seq<Launch>) {
    launches == []
    || (AllSucceed(installed, launches[..|launches| - 1])
        && var l := launches[|launches| - 1];
           !l.sameDir && Step(After(installed, launches[..|launches| - 1]), l).0)
  }

  /** After any successful launches on a clean machine, at least one, the binary is one that was offered. */
  lemma {:induction false} LaunchesInstall(launches: seq<Launch>)
    requires launches != [] && AllSucceed(Tree(None, None), launches)
    ensures var b := After(Tree(None, None), launches).binary;
      b.Some? && exists i :: 0 <= i < |launches| && launches[i].payload.binary == b
  {
    SuccessLeavesBinary(After(Tree(None, None), launches[..|launches| - 1]), launches[|launches| - 1]);
    BinaryComesFromPayload(Tree(None, None), launches);
  }

  /** When an unmarked binary answers and no copy is due, a versioned payload makes the launch adopt the
      answer as marker, if it can be written; from then on an older payload is refused without asking. */
  lemma AdoptedMarkerProtects(installed: Tree, l: Launch, next: Launch)
    requires installed.binary.Some? && ReadVersion(installed) == "" && Answer(l) != ""
    requires l.payload.binary.Some? && !l.sameDir && ReadVersion(l.payload) != "" && !CopyIsDue(installed, l) && l.adopts
    ensures var t := Step(installed, l).1;
      && ReadVersion(t) == Answer(l) && t.binary == installed.binary
      && (Compare(ReadVersion(next.payload), Answer(l)) <= 0 ==> Step(t, next).1.binary == installed.binary)
  {
    TrimmedLineReadsBack(l.probe);
  }

  // ---- when one launch downgrades ----

  /** The payload's binary reaches its place if the launch decides to copy. */
  predicate Replaces(l: Launch) {
    l.payload.binary.Some? && !l.sameDir && l.copy != FailsBeforeBinary
  }

  /** One launch puts an older binary in the place of the installed one exactly when an older payload
      with a version is copied, and the installed version is unknown or taken for less than the payload's. */
  lemma {:induction false} DowngradesIff(installed: Tree, l: Launch)
    requires installed.binary.Some?
    ensures Compare(Version(Step(installed, l).1), Version(installed)) < 0
      <==> && Replaces(l) && ReadVersion(l.payload) != "" && Compare(Version(l.payload), Version(installed)) < 0
           && (Known(installed, l) == "" || Compare(ReadVersion(l.payload), Known(installed, l)) > 0)
  {
    CompareIsAntisymmetric(Version(installed), Version(installed));
  }

  /** Payloads and binaries say what they are, or nothing. */
  predicate Truthful(installed: Tree, l: Launch) {
    && (ReadVersion(l.payload) != "" ==> ReadVersion(l.payload) == Version(l.payload))
    && (Answer(l) != "" ==> Answer(l) == Version(installed))
  }

  /** When both are truthful there are two ways: no marker and no answer, or a marker that is older
      than the payload although the binary is newer. */
  lemma TruthfulDowngradesIff(installed: Tree, l: Launch)
    requires installed.binary.Some? && Truthful(installed, l)
    ensures Compare(Version(Step(installed, l).1), Version(installed)) < 0
      <==> && Replaces(l) && ReadVersion(l.payload) != "" && Compare(ReadVersion(l.payload), Version(installed)) < 0
           && if ReadVersion(installed) == "" then Answer(l) == ""
              else Compare(ReadVersion(installed), ReadVersion(l.payload)) < 0
  {
    DowngradesIff(installed, l);
    CompareIsAntisymmetric(ReadVersion(l.payload), Known(installed, l));
  }

  // ---- runs that never downgrade ----

  /** The version a launch offers, or "" if it offers none or the copying fails. */
  function Offered(l: Launch): string {
    if l.payload.binary.None? || l.sameDir || l.copy != Complete then "" else ReadVersion(l.payload)
  }

  /** The launch runs the installed binary to learn its version. */
  predicate Asks(installed: Tree, l: Launch) {
    l.payload.binary.Some? && !l.sameDir && installed.binary.Some? && ReadVersion(l.payload) != "" && ReadVersion(installed) == ""
  }

  /** No copy stops after the binary, payloads say what they are, and the installed binary answers
      truly when it is asked. */
  predicate Sound(installed: Tree, l: Launch) {
    && l.copy != FailsAfterBinary
    && (Offered(l) != "" ==> Version(l.payload) == Offered(l))
    && (Asks(installed, l) ==> Answer(l) == Version(installed))
  }

  predicate SoundRun(installed: Tree, launches: seq<Launch>) {
    launches == []
    || (SoundRun(installed, launches[..|launches| - 1])
        && Sound(After(installed, launches[..|launches| - 1]), launches[|launches| - 1]))
  }

  /** The binary has a version, and the marker, if there is one, names it. */
  predicate InStep(t: Tree) {
    t.binary.Some? && Version(t) != "" && (ReadVersion(t) == "" || ReadVersion(t) == Version(t))
  }

  /** One launch keeps the marker true and leaves the newer of the installed and the offered binary. */
  lemma LaunchKeepsNewer(installed: Tree, l: Launch)
    requires InStep(installed) && Sound(installed, l)
    ensures InStep(Step(installed, l).1)
    ensures Version(Step(installed, l).1) == Newer(Version(installed), Offered(l))
  {
    MarkerReadsBack(l.payload);
    TrimmedLineReadsBack(l.probe);
  }

  predicate AtMost(a: string, b: string) {
    Compare(a, b) <= 0
  }

  function Newer(v: string, offered: string): string {
    if offered != "" && Compare(offered, v) > 0 then offered else v
  }

  /** Keeping the newer one, offer by offer. */
  function Newest(v: string, offers: seq<string>): string {
    if offers == [] then v else Newer(Newest(v, offers[..|offers| - 1]), offers[|offers| - 1])
  }

  /** The versions a run of launches offers. */
  function Offers(launches: seq<Launch>): seq<string> {
    if launches == [] then [] else Offers(launches[..|launches| - 1]) + [Offered(launches[|launches| - 1])]
  }

  /** `v` is a maximum of the starting version and the offers. */
  ghost predicate IsMaximum(v: string, start: string, offers: seq<string>) {
    && (v == start || v in offers)
    && AtMost(start, v)
    && forall w :: w in offers && w != "" ==> AtMost(w, v)
  }

  lemma NewerIsMaximum(u: string, start: string, offers: seq<string>, offered: string)
    requires IsMaximum(u, start, offers)
    ensures IsMaximum(Newer(u, offered), start, offers + [offered])
  {
    var v := Newer(u, offered);
    CompareIsAntisymmetric(u, v);
    CompareIsAntisymmetric(v, v);
    CompareIsAntisymmetric(offered, u);
    assert AtMost(u, v) && (offered != "" ==> AtMost(offered, v));
    LiftAtMost(start, u, v);
    forall w | w in offers + [offered] && w != "" ensures AtMost(w, v) {
      if w in offers { LiftAtMost(w, u, v); }
    }
  }

  lemma LiftAtMost(a: string, b: string, c: string)
    requires AtMost(a, b) && AtMost(b, c)
    ensures AtMost(a, c)
  {
    CompareIsTransitive(a, b, c);
  }

  lemma {:induction false} NewestIsMaximum(start: string, offers: seq<string>)
    ensures IsMaximum(Newest(start, offers), start, offers)
  {
    if offers == [] {
      CompareIsAntisymmetric(start, start);
    } else {
      var init := offers[..|offers| - 1];
      NewestIsMaximum(start, init);
      NewerIsMaximum(Newest(start, init), start, init, offers[|offers| - 1]);
      assert offers == init + [offers[|offers| - 1]];
    }
  }

  lemma {:induction false} LaunchesKeepNewest(installed: Tree, launches: seq<Launch>)
    requires InStep(installed) && SoundRun(installed, launches)
    ensures InStep(After(installed, launches))
    ensures Version(After(installed, launches)) == Newest(Version(installed), Offers(launches))
  {
    if launches != [] {
      var init, l := launches[..|launches| - 1], launches[|launches| - 1];
      LaunchesKeepNewest(installed, init);
      LaunchKeepsNewer(After(installed, init), l);
      assert (Offers(init) + [Offered(l)])[..|Offers(init)|] == Offers(init);
    }
  }

  /** Over any sound sequence of launches the version of the binary is in the end a maximum of the
      initial one and all offered ones, and the marker never names another. */
  lemma {:induction false} FinalVersionIsMaximum(installed: Tree, launches: seq<Launch>)
    requires InStep(installed) && SoundRun(installed, launches)
    ensures IsMaximum(Version(After(installed, launches)), Version(installed), Offers(launches))
    ensures InStep(After(installed, launches))
  {
    LaunchesKeepNewest(installed, launches);
    NewestIsMaximum(Version(installed), Offers(launches));
  }

  /** Later launches never put an older binary in place. */
  lemma {:induction false} NeverDowngrades(installed: Tree, launches: seq<Launch>, n: nat)
    requires InStep(installed) && SoundRun(installed, launches) && n <= |launches|
    ensures Compare(Version(After(installed, launches[..n])), Version(After(installed, launches))) <= 0
  {
    SoundSplits(installed, launches, n);
    LaunchesKeepNewest(installed, launches[..n]);
    FinalVersionIsMaximum(After(installed, launches[..n]), launches[n..]);
    AfterSplits(installed, launches, n);
  }

  lemma {:induction false} SoundSplits(installed: Tree, launches: seq<Launch>, n: nat)
    requires SoundRun(installed, launches) && n <= |launches|
    ensures SoundRun(installed, launches[..n]) && SoundRun(After(installed, launches[..n]), launches[n..])
    decreases |launches|
  {
    if n == |launches| {
      assert launches[..n] == launches;
    } else {
      var init := launches[..|launches| - 1];
      SoundSplits(installed, init, n);
      AfterSplits(installed, init, n);
      assert init[..n] == launches[..n] && launches[n..][..|launches| - n - 1] == init[n..];
    }
  }

  lemma {:induction false} AfterSplits(installed: Tree, launches: seq<Launch>, n: nat)
    requires n <= |launches|
    ensures After(installed, launches) == After(After(installed, launches[..n]), launches[n..])
    decreases |launches|
  {
    if n == |launches| {
      assert launches[..n] == launches;
    } else {
      var init := launches[..|launches| - 1];
      AfterSplits(installed, init, n);
      assert init[..n] == launches[..n] && launches[n..][..|launches| - n - 1] == init[n..];
    }
  }

  /** A launch changes an existing marker only to what it offers. */
  lemma MarkerAfter(installed: Tree, l: Launch)
    requires ReadVersion(installed) != ""
    ensures ReadVersion(Step(installed, l).1)
         == if Offered(l) != "" && NeedsInstall(installed, l) then Offered(l) else ReadVersion(installed)
  {
    MarkerReadsBack(l.payload);
  }

  /** However the copying goes, the marker itself goes down in one launch exactly when the installed
      binary is missing and a payload older than the marker left behind is copied completely. */
  lemma {:induction false} MarkerGoesDownIff(installed: Tree, l: Launch)
    requires ReadVersion(installed) != ""
    ensures Compare(ReadVersion(Step(installed, l).1), ReadVersion(installed)) < 0
      <==> installed.binary.None? && Offered(l) != "" && Compare(Offered(l), ReadVersion(installed)) < 0
  {
    MarkerAfter(installed, l);
    CompareIsAntisymmetric(ReadVersion(installed), ReadVersion(installed));
  }

  // ---- the ways it fails ----

  /** Without a marker and without an answer any older payload replaces the binary. */
  lemma FailedProbeDowngrades(installed: Tree, l: Launch)
    requires installed.binary.Some? && ReadVersion(installed) == "" && Answer(l) == ""
    requires Replaces(l) && ReadVersion(l.payload) != "" && Compare(Version(l.payload), Version(installed)) < 0
    ensures Step(installed, l).1.binary == l.payload.binary
    ensures Compare(Version(Step(installed, l).1), Version(installed)) < 0
  {
  }

  /** Even after a launch on which the binary answered: when the adopted marker could not be written,
      a later launch on which it does not answer replaces it by the same older payload. */
  lemma LaterFailedProbeDowngrades(installed: Tree, payload: Tree)
    requires installed.binary.Some? && ReadVersion(installed) == ""
    requires Version(installed) != "" && TrimSpace(Version(installed)) == Version(installed)
    requires payload.binary.Some? && ReadVersion(payload) != "" && Version(payload) == ReadVersion(payload)
    requires Compare(Version(payload), Version(installed)) < 0
    ensures var answered := Launch(payload, false, Version(installed), Complete, false);
      var unanswered := Launch(payload, false, "", Complete, true);
      && Truthful(installed, answered) && Truthful(installed, unanswered)
      && After(installed, [answered]) == installed
      && After(installed, [answered, unanswered]).binary == payload.binary
  {
    var answered := Launch(payload, false, Version(installed), Complete, false);
    var unanswered := Launch(payload, false, "", Complete, true);
    assert [answered, unanswered][..1] == [answered] && [answered][..0] == [];
    assert After(installed, []) == installed;
    assert Answer(unanswered) == "";
    FailedProbeDowngrades(installed, unanswered);
  }

  /** A newer payload is always copied. */
  lemma NewerPayloadInstalls(installed: Tree, payload: Tree, copy: Copy)
    requires installed.binary.Some? && payload.binary.Some? && ReadVersion(installed) != ""
    requires ReadVersion(payload) != "" && Compare(ReadVersion(payload), ReadVersion(installed)) > 0
    ensures Step(installed, Launch(payload, false, "", copy, true)).1 == Copied(installed, payload, copy)
  {
  }

  /** A copy that stops between the binary and the marker leaves the marker behind: of three increasing
      versions the newest binary arrives, and the next launch replaces it by the middle one. */
  lemma InterruptedCopyLosesNewestBinary(installed: Tree, middle: Tree, newest: Tree)
    requires installed.binary.Some? && middle.binary.Some? && newest.binary.Some?
    requires ReadVersion(installed) != "" && ReadVersion(middle) != "" && ReadVersion(newest) != ""
    requires Compare(ReadVersion(middle), ReadVersion(installed)) > 0 && Compare(ReadVersion(newest), ReadVersion(middle)) > 0
    ensures var interrupted := Step(installed, Launch(newest, false, "", FailsAfterBinary, true)).1;
      && interrupted.binary == newest.binary
      && Step(interrupted, Launch(middle, false, "", Complete, true)).1.binary == middle.binary
  {
    var (v1, v2, v3) := (ReadVersion(installed), ReadVersion(middle), ReadVersion(newest));
    CompareIsAntisymmetric(v2, v1);
    CompareIsAntisymmetric(v3, v2);
    CompareIsAntisymmetric(v3, v1);
    CompareIsTransitive(v1, v2, v3);
    NewerPayloadInstalls(installed, newest, FailsAfterBinary);
    NewerPayloadInstalls(installed.(binary := newest.binary), middle, Complete);
  }

  // ---- the code ----

  class Installer {
    var binary: Option<Binary>
    var versionFile: Option<string>

    function View(): Tree
      reads this
    {
      Tree(binary, versionFile)
    }

    constructor (installed: Tree)
      ensures View() == installed
    {
      binary, versionFile := installed.binary, installed.versionFile;
    }

    method EnsureSidecarInstalled(l: Launch) returns (ok: bool)
      modifies this
      ensures (ok, View()) == Step(old(View()), l)
    {
      if l.payload.binary.None? {
        return false;
      }
      if l.sameDir {
        return true;
      }
      var payloadVer, installedVer := ReadVersion(l.payload), ReadVersion(View());
      var need := false;
      if binary.None? {
        need := true;
      } else if payloadVer == "" {
        need := false;
      } else if installedVer == "" {
        var v := Answer(l);
        if v != "" {
          var c := CompareVersions(payloadVer, v);
          need := c > 0;
          if !need && l.adopts {
            versionFile := Some(v + "\n");
          }
        } else {
          need := true;
        }
      } else {
        var c := CompareVersions(payloadVer, installedVer);
        need := c > 0;
      }
      if !need {
        return true;
      }
      ok := InstallSidecarTree(l.payload, l.copy);
    }

    method InstallSidecarTree(payload: Tree, copy: Copy) returns (ok: bool)
      modifies this
      ensures View() == Copied(old(View()), payload, copy) && (ok <==> copy == Complete)
    {
      if copy == FailsBeforeBinary {
        return false;
      }
      binary := payload.binary;
      if copy == FailsAfterBinary {
        return false;
      }
      var version := ReadVersion(payload);
      if version != "" {
        versionFile := Some(version + "\n");
      }
      return true;
    }
  }
}
