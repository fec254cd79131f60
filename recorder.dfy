/**
 * The voice recorder (`handleVoice`): it drains a stream of voice packets,
 * opens one Ogg writer per SSRC on that SSRC's first packet, writes every
 * packet to the writer of its own SSRC, and closes every writer once the
 * stream has ended. A failed write is only reported; a failed creation makes
 * the recorder return at once, leaving the stream undrained and the writers
 * it already opened unclosed.
 *
 * The writers live in an unseen library, so their calls are recorded as
 * effects, and whether each call succeeds is an input: `createOk[i]` and
 * `writeOk[i]` are the results the library gives for the i-th packet.
 */
module Recorder {
  import opened Types
  import opened Rtp
  import Text
  import Seqs

  /** Identity of one writer object, in order of creation. */
  type WriterId = nat

  const SampleRate: nat := 48000
  const Channels: nat := 2

  /** The calls the recorder makes on the Ogg writer library, in order. */
  datatype Effect =
    | Create(writer: WriterId, path: string, sampleRate: nat, channels: nat)
    | CreateFailed(path: string, sampleRate: nat, channels: nat)
    | Write(writer: WriterId, frame: RtpPacket, ok: bool)
    | Close(writer: WriterId)

  /** The output file of one SSRC, `fmt.Sprintf("%d.ogg", ssrc)`. */
  function FileName(ssrc: uint32): string {
    Text.Decimal(ssrc as nat) + ".ogg"
  }

  /** The file name is the SSRC's decimal digits, which read back as the SSRC, then `.ogg`. */
  lemma FileNameParts(ssrc: uint32)
    ensures var f := FileName(ssrc);
      && |f| > 4 && f[|f| - 4..] == ".ogg" && Text.IsDigits(f[..|f| - 4])
      && Text.ParseDecimal(f[..|f| - 4]) == ssrc as nat
  {
    var d := Text.Decimal(ssrc as nat);
    Text.ParseDecimalOfDecimal(ssrc as nat);
    assert FileName(ssrc)[..|d|] == d;
  }

  /** Different sources never share an output file. */
  lemma FileNameInjective(a: uint32, b: uint32)
    requires FileName(a) == FileName(b)
    ensures a == b
  {
    FileNameParts(a);
    FileNameParts(b);
  }

  /** The recorder's state between two packets: the SSRC map, the next writer id, what it did so far. */
  datatype Demux = Demux(files: map<uint32, WriterId>, next: WriterId, effects: seq<Effect>, aborted: bool)

  const Start: Demux := Demux(map[], 0, [], false)

  /** One iteration of the receive loop. */
  function Step(d: Demux, p: Packet, createOk: bool, writeOk: bool): Demux {
    if d.aborted then d
    else if p.ssrc in d.files then
      d.(effects := d.effects + [Write(d.files[p.ssrc], CreatePionRtpPacket(p), writeOk)])
    else if !createOk then
      d.(effects := d.effects + [CreateFailed(FileName(p.ssrc), SampleRate, Channels)], aborted := true)
    else
      Demux(d.files[p.ssrc := d.next], d.next + 1,
            d.effects + [Create(d.next, FileName(p.ssrc), SampleRate, Channels),
                         Write(d.next, CreatePionRtpPacket(p), writeOk)],
            false)
  }

  predicate Results(ps: seq<Packet>, createOk: seq<bool>, writeOk: seq<bool>) {
    |createOk| == |ps| && |writeOk| == |ps|
  }

  /** The state after the receive loop has taken the first `n` packets. */
  function Consume(ps: seq<Packet>, createOk: seq<bool>, writeOk: seq<bool>, n: nat): Demux
    requires Results(ps, createOk, writeOk) && n <= |ps|
  {
    if n == 0 then Start
    else Step(Consume(ps, createOk, writeOk, n - 1), ps[n - 1], createOk[n - 1], writeOk[n - 1])
  }

  /**
   * One iteration after an abort changes nothing; otherwise it appends one or
   * two calls, keeps every binding, binds at most the packet's own SSRC, and
   * moves the next writer id on by the number of new bindings.
   */
  lemma StepExtends(d: Demux, p: Packet, createOk: bool, writeOk: bool)
    ensures var r := Step(d, p, createOk, writeOk);
      && (d.aborted ==> r == d)
      && (!d.aborted ==> |d.effects| < |r.effects| <= |d.effects| + 2 && r.effects[..|d.effects|] == d.effects)
      && (forall s :: s in d.files ==> s in r.files && r.files[s] == d.files[s])
      && r.files.Keys <= d.files.Keys + {p.ssrc}
      && d.next <= r.next <= d.next + 1 && r.next - d.next == |r.files| - |d.files|
  {
  }

  /**
   * After `n` packets the next writer id equals the number of writers, there
   * is at most one writer per packet, and at most two calls per packet have
   * been made.
   */
  lemma {:induction false} ConsumeCounts(ps: seq<Packet>, createOk: seq<bool>, writeOk: seq<bool>, n: nat)
    requires Results(ps, createOk, writeOk) && n <= |ps|
    ensures var d := Consume(ps, createOk, writeOk, n);
      d.next == |d.files| && |d.files| <= n && |d.effects| <= 2 * n
  {
    if n > 0 {
      ConsumeCounts(ps, createOk, writeOk, n - 1);
      StepExtends(Consume(ps, createOk, writeOk, n - 1), ps[n - 1], createOk[n - 1], writeOk[n - 1]);
    }
  }

  // ---- Reference definitions the loop is compared with ----

  /** The SSRCs that occur in a packet sequence. */
  function SsrcsOf(ps: seq<Packet>): set<uint32> {
    set i | 0 <= i < |ps| :: ps[i].ssrc
  }

  /** The frames an SSRC's recording should hold: that SSRC's packets, in arrival order, translated. */
  function FramesOf(ps: seq<Packet>, s: uint32): seq<RtpPacket> {
    if |ps| == 0 then []
    else FramesOf(ps[..|ps| - 1], s) + (if ps[|ps| - 1].ssrc == s then [CreatePionRtpPacket(ps[|ps| - 1])] else [])
  }

  /** The frames written to writer `w`, in the order of the writes. */
  function WrittenTo(es: seq<Effect>, w: WriterId): seq<RtpPacket> {
    if |es| == 0 then []
    else WrittenTo(es[..|es| - 1], w) + (if es[|es| - 1].Write? && es[|es| - 1].writer == w then [es[|es| - 1].frame] else [])
  }

  /** The number of write calls. */
  function Writes(es: seq<Effect>): nat {
    if |es| == 0 then 0 else Writes(es[..|es| - 1]) + (if es[|es| - 1].Write? then 1 else 0)
  }

  /** Packet `i` is the first one of its SSRC. */
  predicate FirstOfSource(ps: seq<Packet>, i: nat)
    requires i < |ps|
  {
    ps[i].ssrc !in SsrcsOf(ps[..i])
  }

  function CreatedPaths(files: map<uint32, WriterId>): set<string> {
    set s | s in files :: FileName(s)
  }

  // ---- Properties of the receive loop ----

  /**
   * Induction over the receive loop: a property of the state that holds at
   * the start and that every step keeps holds after any number of packets.
   */
  lemma {:induction false} LoopInvariant(inv: Demux -> bool, ps: seq<Packet>, createOk: seq<bool>, writeOk: seq<bool>, n: nat)
    requires Results(ps, createOk, writeOk) && n <= |ps|
    requires inv(Start)
    requires forall d, p, c, w :: inv(d) ==> inv(Step(d, p, c, w))
    ensures inv(Consume(ps, createOk, writeOk, n))
  {
    if n > 0 {
      LoopInvariant(inv, ps, createOk, writeOk, n - 1);
    }
  }

  /** The effects one step appends. */
  lemma StepAppends(d: Demux, p: Packet, createOk: bool, writeOk: bool)
    requires !d.aborted
    ensures p.ssrc in d.files ==>
      Step(d, p, createOk, writeOk).effects == d.effects + [Write(d.files[p.ssrc], CreatePionRtpPacket(p), writeOk)]
    ensures p.ssrc !in d.files && !createOk ==>
      Step(d, p, createOk, writeOk).effects == d.effects + [CreateFailed(FileName(p.ssrc), SampleRate, Channels)]
    ensures p.ssrc !in d.files && createOk ==>
      Step(d, p, createOk, writeOk).effects == d.effects + [Create(d.next, FileName(p.ssrc), SampleRate, Channels),
                                                            Write(d.next, CreatePionRtpPacket(p), writeOk)]
  {
  }

  ghost predicate WriterIdsFresh(d: Demux) {
    && (forall s :: s in d.files ==> d.files[s] < d.next)
    && (forall s, t :: s in d.files && t in d.files && s != t ==> d.files[s] != d.files[t])
    && (forall k :: 0 <= k < |d.effects| ==> !d.effects[k].Close?)
    && (forall k :: 0 <= k < |d.effects| && (d.effects[k].Create? || d.effects[k].Write?) ==> d.effects[k].writer < d.next)
  }

  lemma WriterIdsFreshStep(d0: Demux, p: Packet, createOk: bool, writeOk: bool)
    requires WriterIdsFresh(d0)
    ensures WriterIdsFresh(Step(d0, p, createOk, writeOk))
  {
    if !d0.aborted {
      StepAppends(d0, p, createOk, writeOk);
    }
  }

  /**
   * Writers get distinct ids below `next`, every effect so far names such a
   * writer, and no writer has been closed while packets are being received.
   */
  lemma {:induction false} WriterIdsDistinct(ps: seq<Packet>, createOk: seq<bool>, writeOk: seq<bool>, n: nat)
    requires Results(ps, createOk, writeOk) && n <= |ps|
    ensures WriterIdsFresh(Consume(ps, createOk, writeOk, n))
  {
    if n > 0 {
      WriterIdsDistinct(ps, createOk, writeOk, n - 1);
      WriterIdsFreshStep(Consume(ps, createOk, writeOk, n - 1), ps[n - 1], createOk[n - 1], writeOk[n - 1]);
    }
  }

  ghost predicate Extends(big: map<uint32, WriterId>, small: map<uint32, WriterId>) {
    forall s :: s in small ==> s in big && big[s] == small[s]
  }

  /** Once a writer is bound to an SSRC the binding never changes. */
  lemma {:induction false} FilesOnlyGrow(ps: seq<Packet>, createOk: seq<bool>, writeOk: seq<bool>, m: nat, n: nat)
    requires Results(ps, createOk, writeOk) && m <= n <= |ps|
    ensures Extends(Consume(ps, createOk, writeOk, n).files, Consume(ps, createOk, writeOk, m).files)
    decreases n - m
  {
    if m < n {
      FilesOnlyGrow(ps, createOk, writeOk, m, n - 1);
      var d0 := Consume(ps, createOk, writeOk, n - 1);
      assert Extends(Step(d0, ps[n - 1], createOk[n - 1], writeOk[n - 1]).files, d0.files);
    }
  }

  /** The SSRCs of a packet sequence with one more packet. */
  lemma SsrcsOfSnoc(ps: seq<Packet>, n: nat)
    requires 0 < n <= |ps|
    ensures SsrcsOf(ps[..n]) == SsrcsOf(ps[..n - 1]) + {ps[n - 1].ssrc}
  {
    assert ps[..n] == ps[..n - 1] + [ps[n - 1]];
  }

  /**
   * Lazy creation: while the loop runs, the SSRCs that have a writer are
   * exactly the SSRCs of the packets taken so far (so a source without
   * packets never gets a file).
   */
  lemma {:induction false} WritersAreForSeenSources(ps: seq<Packet>, createOk: seq<bool>, writeOk: seq<bool>, n: nat)
    requires Results(ps, createOk, writeOk) && n <= |ps|
    requires !Consume(ps, createOk, writeOk, n).aborted
    ensures Consume(ps, createOk, writeOk, n).files.Keys == SsrcsOf(ps[..n])
  {
    if n > 0 {
      var d0 := Consume(ps, createOk, writeOk, n - 1);
      WritersAreForSeenSources(ps, createOk, writeOk, n - 1);
      SsrcsOfSnoc(ps, n);
      assert Step(d0, ps[n - 1], createOk[n - 1], writeOk[n - 1]).files.Keys == d0.files.Keys + {ps[n - 1].ssrc};
    }
  }

  /** The loop gives up exactly when the creation for some source's first packet failed. */
  lemma {:induction false} AbortsIffCreationFails(ps: seq<Packet>, createOk: seq<bool>, writeOk: seq<bool>, n: nat)
    requires Results(ps, createOk, writeOk) && n <= |ps|
    ensures Consume(ps, createOk, writeOk, n).aborted
        <==> exists i :: 0 <= i < n && FirstOfSource(ps, i) && !createOk[i]
  {
    if n > 0 {
      var d0 := Consume(ps, createOk, writeOk, n - 1);
      AbortsIffCreationFails(ps, createOk, writeOk, n - 1);
      if !d0.aborted {
        WritersAreForSeenSources(ps, createOk, writeOk, n - 1);
        assert FirstOfSource(ps, n - 1) <==> ps[n - 1].ssrc !in d0.files;
      }
    }
  }

  /** After giving up, later packets change nothing. */
  lemma {:induction false} AbortIsFinal(ps: seq<Packet>, createOk: seq<bool>, writeOk: seq<bool>, m: nat, n: nat)
    requires Results(ps, createOk, writeOk) && m <= n <= |ps|
    requires Consume(ps, createOk, writeOk, m).aborted
    ensures Consume(ps, createOk, writeOk, n) == Consume(ps, createOk, writeOk, m)
    decreases n - m
  {
    if m < n {
      AbortIsFinal(ps, createOk, writeOk, m, n - 1);
    }
  }

  ghost predicate Routed(d: Demux) {
    forall k :: 0 <= k < |d.effects| && d.effects[k].Write? ==>
      && IsVoiceFrame(d.effects[k].frame)
      && d.effects[k].frame.header.ssrc in d.files
      && d.files[d.effects[k].frame.header.ssrc] == d.effects[k].writer
  }

  lemma RoutedStep(d0: Demux, p: Packet, createOk: bool, writeOk: bool)
    requires Routed(d0)
    ensures Routed(Step(d0, p, createOk, writeOk))
  {
    if !d0.aborted {
      var d := Step(d0, p, createOk, writeOk);
      StepAppends(d0, p, createOk, writeOk);
      if p.ssrc !in d0.files && createOk {
        forall k | 0 <= k < |d0.effects| && d0.effects[k].Write?
          ensures d.files[d0.effects[k].frame.header.ssrc] == d0.effects[k].writer
        {
          assert d0.effects[k].frame.header.ssrc in d0.files;
        }
      }
    }
  }

  /**
   * Routing: every write goes to the writer of the written frame's own SSRC,
   * and the frame has the fixed voice header.
   */
  lemma {:induction false} WritesGoToOwnSource(ps: seq<Packet>, createOk: seq<bool>, writeOk: seq<bool>, n: nat)
    requires Results(ps, createOk, writeOk) && n <= |ps|
    ensures Routed(Consume(ps, createOk, writeOk, n))
  {
    if n > 0 {
      WritesGoToOwnSource(ps, createOk, writeOk, n - 1);
      RoutedStep(Consume(ps, createOk, writeOk, n - 1), ps[n - 1], createOk[n - 1], writeOk[n - 1]);
    }
  }

  /** A call that tries to create an output file, whether or not it succeeds. */
  predicate Attempt(e: Effect) {
    e.Create? || e.CreateFailed?
  }

  ghost predicate CreatedOnce(d: Demux) {
    && (forall s :: s in d.files ==> Create(d.files[s], FileName(s), SampleRate, Channels) in d.effects)
    && (forall k :: 0 <= k < |d.effects| && d.effects[k].Create? ==> d.effects[k].path in CreatedPaths(d.files))
    && (forall j, k :: 0 <= j < k < |d.effects| && Attempt(d.effects[j]) && Attempt(d.effects[k]) ==>
          d.effects[j].path != d.effects[k].path)
    && (forall k :: 0 <= k < |d.effects| && d.effects[k].CreateFailed? ==> d.aborted)
  }

  /**
   * At-most-once creation: every SSRC with a writer had it created once, under
   * `"<ssrc>.ogg"` at 48 kHz and 2 channels, no two creation attempts (the
   * failed one included) name the same file, and a failed attempt ends the loop.
   */
  lemma CreatedOncePerSource(ps: seq<Packet>, createOk: seq<bool>, writeOk: seq<bool>, n: nat)
    requires Results(ps, createOk, writeOk) && n <= |ps|
    ensures CreatedOnce(Consume(ps, createOk, writeOk, n))
  {
    forall d, p, c, w | CreatedOnce(d)
      ensures CreatedOnce(Step(d, p, c, w))
    {
      CreatedOnceStep(d, p, c, w);
    }
    LoopInvariant(CreatedOnce, ps, createOk, writeOk, n);
  }

  lemma CreatedOnceStep(d0: Demux, p: Packet, createOk: bool, writeOk: bool)
    requires CreatedOnce(d0)
    ensures CreatedOnce(Step(d0, p, createOk, writeOk))
  {
    if d0.aborted {
    } else if p.ssrc in d0.files {
      StepAppends(d0, p, createOk, writeOk);
      CreatedOnceNoCreate(d0, Step(d0, p, createOk, writeOk));
    } else if !createOk {
      CreatedOnceCreateFails(d0, p, writeOk);
    } else {
      CreatedOnceNewSource(d0, p, writeOk);
    }
  }

  /** A step that attempts no creation: same files, effects extended by other calls. */
  lemma CreatedOnceNoCreate(d0: Demux, d: Demux)
    requires CreatedOnce(d0)
    requires d.files == d0.files && d.aborted == d0.aborted
    requires |d0.effects| <= |d.effects| && d.effects[..|d0.effects|] == d0.effects
    requires forall k :: |d0.effects| <= k < |d.effects| ==> !Attempt(d.effects[k])
    ensures CreatedOnce(d)
  {
    var m := |d0.effects|;
    forall s | s in d.files
      ensures Create(d.files[s], FileName(s), SampleRate, Channels) in d.effects
    {
      var k :| 0 <= k < m && d0.effects[k] == Create(d0.files[s], FileName(s), SampleRate, Channels);
      assert d.effects[k] == d0.effects[k];
    }
    forall k | 0 <= k < |d.effects| && d.effects[k].Create?
      ensures d.effects[k].path in CreatedPaths(d.files)
    {
      assert d.effects[k] == d0.effects[k];
    }
    forall j, k | 0 <= j < k < |d.effects| && Attempt(d.effects[j]) && Attempt(d.effects[k])
      ensures d.effects[j].path != d.effects[k].path
    {
      assert d.effects[j] == d0.effects[j] && d.effects[k] == d0.effects[k];
    }
    forall k | 0 <= k < |d.effects| && d.effects[k].CreateFailed?
      ensures d.aborted
    {
      assert d.effects[k] == d0.effects[k];
    }
  }

  /** A path created for some writer is not the file name of an SSRC without one. */
  lemma CreatedPathsExclude(files: map<uint32, WriterId>, s: uint32, path: string)
    requires s !in files && path in CreatedPaths(files)
    ensures path != FileName(s)
  {
    var t :| t in files && FileName(t) == path;
    if path == FileName(s) {
      FileNameInjective(t, s);
    }
  }

  /** The step whose creation fails: its file name differs from every earlier attempt. */
  lemma CreatedOnceCreateFails(d0: Demux, p: Packet, writeOk: bool)
    requires CreatedOnce(d0) && !d0.aborted && p.ssrc !in d0.files
    ensures CreatedOnce(Step(d0, p, false, writeOk))
  {
    var d := Step(d0, p, false, writeOk);
    var m := |d0.effects|;
    StepAppends(d0, p, false, writeOk);
    assert d.files == d0.files && d.aborted;
    forall s | s in d.files
      ensures Create(d.files[s], FileName(s), SampleRate, Channels) in d.effects
    {
      var k :| 0 <= k < m && d0.effects[k] == Create(d0.files[s], FileName(s), SampleRate, Channels);
      assert d.effects[k] == d0.effects[k];
    }
    forall k | 0 <= k < |d.effects| && d.effects[k].Create?
      ensures d.effects[k].path in CreatedPaths(d.files)
    {
      assert d.effects[k] == d0.effects[k];
    }
    forall j, k | 0 <= j < k < |d.effects| && Attempt(d.effects[j]) && Attempt(d.effects[k])
      ensures d.effects[j].path != d.effects[k].path
    {
      assert d.effects[j] == d0.effects[j];
      if k < m {
        assert d.effects[k] == d0.effects[k];
      } else {
        assert d.effects[k].path == FileName(p.ssrc);
        CreatedPathsExclude(d0.files, p.ssrc, d.effects[j].path);
      }
    }
  }

  /** The step that creates the writer of a new source. */
  lemma CreatedOnceNewSource(d0: Demux, p: Packet, writeOk: bool)
    requires CreatedOnce(d0) && !d0.aborted && p.ssrc !in d0.files
    ensures CreatedOnce(Step(d0, p, true, writeOk))
  {
    var d := Step(d0, p, true, writeOk);
    var c := Create(d0.next, FileName(p.ssrc), SampleRate, Channels);
    var e := Write(d0.next, CreatePionRtpPacket(p), writeOk);
    StepAppends(d0, p, true, writeOk);
    NewSourceHasCreate(d0, p.ssrc, c, e, d.effects);
    NewSourceCreatesOwnFiles(d0, p.ssrc, c, e, d.effects);
    NewSourcePathsDistinct(d0, p.ssrc, c, e, d.effects);
  }

  lemma NewSourceHasCreate(d0: Demux, s: uint32, c: Effect, e: Effect, es: seq<Effect>)
    requires CreatedOnce(d0) && s !in d0.files
    requires c == Create(d0.next, FileName(s), SampleRate, Channels) && !e.Create?
    requires es == d0.effects + [c, e]
    ensures forall t :: t in d0.files[s := d0.next] ==>
      Create(d0.files[s := d0.next][t], FileName(t), SampleRate, Channels) in es
  {
    var m := |d0.effects|;
    forall t | t in d0.files[s := d0.next]
      ensures Create(d0.files[s := d0.next][t], FileName(t), SampleRate, Channels) in es
    {
      if t == s {
        assert es[m] == c;
      } else {
        var k :| 0 <= k < m && d0.effects[k] == Create(d0.files[t], FileName(t), SampleRate, Channels);
        assert es[k] == d0.effects[k];
      }
    }
  }

  lemma NewSourceCreatesOwnFiles(d0: Demux, s: uint32, c: Effect, e: Effect, es: seq<Effect>)
    requires CreatedOnce(d0) && s !in d0.files
    requires c == Create(d0.next, FileName(s), SampleRate, Channels) && !Attempt(e)
    requires es == d0.effects + [c, e]
    requires !d0.aborted
    ensures forall k :: 0 <= k < |es| && es[k].Create? ==> es[k].path in CreatedPaths(d0.files[s := d0.next])
    ensures forall k :: 0 <= k < |es| ==> !es[k].CreateFailed?
  {
    var m := |d0.effects|;
    forall k | 0 <= k < |es|
      ensures !es[k].CreateFailed?
    {
      if k < m {
        assert es[k] == d0.effects[k];
      }
    }
    assert CreatedPaths(d0.files[s := d0.next]) == CreatedPaths(d0.files) + {FileName(s)};
    forall k | 0 <= k < |es| && es[k].Create?
      ensures es[k].path in CreatedPaths(d0.files[s := d0.next])
    {
      if k < m {
        assert es[k] == d0.effects[k];
      }
    }
  }

  lemma NewSourcePathsDistinct(d0: Demux, s: uint32, c: Effect, e: Effect, es: seq<Effect>)
    requires CreatedOnce(d0) && !d0.aborted && s !in d0.files
    requires c == Create(d0.next, FileName(s), SampleRate, Channels) && !Attempt(e)
    requires es == d0.effects + [c, e]
    ensures forall j, k :: 0 <= j < k < |es| && Attempt(es[j]) && Attempt(es[k]) ==> es[j].path != es[k].path
  {
    var m := |d0.effects|;
    forall j, k | 0 <= j < k < |es| && Attempt(es[j]) && Attempt(es[k])
      ensures es[j].path != es[k].path
    {
      assert es[j] == d0.effects[j];
      if k < m {
        assert es[k] == d0.effects[k];
      } else {
        assert es[j].Create?;
        CreatedPathsExclude(d0.files, s, es[j].path);
      }
    }
  }


  lemma WritesAppend(es: seq<Effect>, e: Effect)
    ensures Writes(es + [e]) == Writes(es) + (if e.Write? then 1 else 0)
  {
    Seqs.TakeSnoc(es, e);
  }

  /** A step that does not give up adds exactly one write. */
  lemma WritesStep(d0: Demux, p: Packet, createOk: bool, writeOk: bool)
    requires !d0.aborted && !Step(d0, p, createOk, writeOk).aborted
    ensures Writes(Step(d0, p, createOk, writeOk).effects) == Writes(d0.effects) + 1
  {
    StepAppends(d0, p, createOk, writeOk);
    var e := Write(if p.ssrc in d0.files then d0.files[p.ssrc] else d0.next, CreatePionRtpPacket(p), writeOk);
    if p.ssrc in d0.files {
      WritesAppend(d0.effects, e);
    } else {
      var c := Create(d0.next, FileName(p.ssrc), SampleRate, Channels);
      Seqs.AppendPair(d0.effects, c, e);
      WritesAppend(d0.effects, c);
      WritesAppend(d0.effects + [c], e);
    }
  }

  /** A failed write does not stop the loop: while it runs, every packet taken was written once. */
  lemma {:induction false} EveryPacketWritten(ps: seq<Packet>, createOk: seq<bool>, writeOk: seq<bool>, n: nat)
    requires Results(ps, createOk, writeOk) && n <= |ps|
    requires !Consume(ps, createOk, writeOk, n).aborted
    ensures Writes(Consume(ps, createOk, writeOk, n).effects) == n
  {
    if n > 0 {
      var d0 := Consume(ps, createOk, writeOk, n - 1);
      assert !d0.aborted;
      EveryPacketWritten(ps, createOk, writeOk, n - 1);
      WritesStep(d0, ps[n - 1], createOk[n - 1], writeOk[n - 1]);
    }
  }

  /** Two states that differ only in their write results. */
  ghost predicate SameButWrites(d1: Demux, d2: Demux) {
    d1.files == d2.files && d1.next == d2.next && d1.aborted == d2.aborted && |d1.effects| == |d2.effects|
  }

  lemma SameButWritesStep(d1: Demux, d2: Demux, p: Packet, createOk: bool, w1: bool, w2: bool)
    requires SameButWrites(d1, d2)
    ensures SameButWrites(Step(d1, p, createOk, w1), Step(d2, p, createOk, w2))
  {
    if !d1.aborted {
      StepAppends(d1, p, createOk, w1);
      StepAppends(d2, p, createOk, w2);
    }
  }

  /** Whether writes succeed has no influence on which writers exist or on when the loop gives up. */
  lemma {:induction false} WriteResultsIgnored(ps: seq<Packet>, createOk: seq<bool>, w1: seq<bool>, w2: seq<bool>, n: nat)
    requires Results(ps, createOk, w1) && Results(ps, createOk, w2) && n <= |ps|
    ensures Consume(ps, createOk, w1, n).files == Consume(ps, createOk, w2, n).files
    ensures Consume(ps, createOk, w1, n).next == Consume(ps, createOk, w2, n).next
    ensures Consume(ps, createOk, w1, n).aborted == Consume(ps, createOk, w2, n).aborted
    ensures |Consume(ps, createOk, w1, n).effects| == |Consume(ps, createOk, w2, n).effects|
  {
    if n > 0 {
      WriteResultsIgnored(ps, createOk, w1, w2, n - 1);
      SameButWritesStep(Consume(ps, createOk, w1, n - 1), Consume(ps, createOk, w2, n - 1),
                        ps[n - 1], createOk[n - 1], w1[n - 1], w2[n - 1]);
    }
  }

  lemma WrittenToAppend(es: seq<Effect>, e: Effect, w: WriterId)
    ensures WrittenTo(es + [e], w) == WrittenTo(es, w) + (if e.Write? && e.writer == w then [e.frame] else [])
  {
    Seqs.TakeSnoc(es, e);
  }

  lemma {:induction false} WrittenToUnused(es: seq<Effect>, w: WriterId)
    requires forall k :: 0 <= k < |es| && es[k].Write? ==> es[k].writer < w
    ensures WrittenTo(es, w) == []
  {
    if |es| > 0 {
      WrittenToUnused(es[..|es| - 1], w);
    }
  }

  lemma FramesOfSnoc(q: seq<Packet>, p: Packet, s: uint32)
    ensures FramesOf(q + [p], s) == FramesOf(q, s) + (if p.ssrc == s then [CreatePionRtpPacket(p)] else [])
  {
    Seqs.TakeSnoc(q, p);
  }

  /** Each SSRC's writer has received exactly that SSRC's frames, in arrival order. */
  ghost predicate PerSource(d: Demux, ps: seq<Packet>) {
    forall s :: s in d.files ==> WrittenTo(d.effects, d.files[s]) == FramesOf(ps, s)
  }

  /** PerSource carries over a step that does not give up. */
  lemma PerSourceStep(d0: Demux, q: seq<Packet>, p: Packet, createOk: bool, writeOk: bool)
    requires PerSource(d0, q) && WriterIdsFresh(d0) && d0.files.Keys == SsrcsOf(q)
    requires !d0.aborted && !Step(d0, p, createOk, writeOk).aborted
    ensures PerSource(Step(d0, p, createOk, writeOk), q + [p])
  {
    var d := Step(d0, p, createOk, writeOk);
    var f := CreatePionRtpPacket(p);
    StepAppends(d0, p, createOk, writeOk);
    forall s | s in d.files
      ensures WrittenTo(d.effects, d.files[s]) == FramesOf(q + [p], s)
    {
      var w := d.files[s];
      FramesOfSnoc(q, p, s);
      if p.ssrc in d0.files {
        WrittenToAppend(d0.effects, Write(d0.files[p.ssrc], f, writeOk), w);
      } else {
        var c := Create(d0.next, FileName(p.ssrc), SampleRate, Channels);
        var e := Write(d0.next, f, writeOk);
        Seqs.AppendPair(d0.effects, c, e);
        WrittenToAppend(d0.effects, c, w);
        WrittenToAppend(d0.effects + [c], e, w);
        if s == p.ssrc {
          WrittenToUnused(d0.effects, d0.next);
          FramesOfAbsent(q, s);
        }
      }
    }
  }

  /**
   * No cross-source mixing and arrival order kept: while the loop runs, each
   * SSRC's writer has received exactly that SSRC's packets, in arrival order.
   */
  lemma {:induction false} PerSourceArrivalOrder(ps: seq<Packet>, createOk: seq<bool>, writeOk: seq<bool>, n: nat)
    requires Results(ps, createOk, writeOk) && n <= |ps|
    requires !Consume(ps, createOk, writeOk, n).aborted
    ensures PerSource(Consume(ps, createOk, writeOk, n), ps[..n])
  {
    if n > 0 {
      var d0 := Consume(ps, createOk, writeOk, n - 1);
      assert !d0.aborted;
      PerSourceArrivalOrder(ps, createOk, writeOk, n - 1);
      WriterIdsDistinct(ps, createOk, writeOk, n - 1);
      WritersAreForSeenSources(ps, createOk, writeOk, n - 1);
      Seqs.TakeOneLess(ps, n);
      PerSourceStep(d0, ps[..n - 1], ps[n - 1], createOk[n - 1], writeOk[n - 1]);
    }
  }

  lemma {:induction false} FramesOfAbsent(ps: seq<Packet>, s: uint32)
    requires s !in SsrcsOf(ps)
    ensures FramesOf(ps, s) == []
  {
    if |ps| > 0 {
      assert SsrcsOf(ps[..|ps| - 1]) <= SsrcsOf(ps);
      FramesOfAbsent(ps[..|ps| - 1], s);
    }
  }

  // ---- The recorder itself ----

  /** Each writer of `files` closed exactly once and nothing else. */
  ghost predicate ClosesEachOnce(cs: seq<Effect>, files: map<uint32, WriterId>) {
    && (forall k :: 0 <= k < |cs| ==> cs[k].Close? && cs[k].writer in files.Values)
    && (forall j, k :: 0 <= j < k < |cs| ==> cs[j] != cs[k])
    && (forall s :: s in files ==> Close(files[s]) in cs)
  }

  /** No write is issued after a writer has been closed. */
  ghost predicate NoWriteAfterClose(es: seq<Effect>) {
    forall j, k :: 0 <= j < k < |es| && es[j].Close? ==> !es[k].Write?
  }

  /** A run that stopped before closing anything issued no write after a close. */
  lemma WithoutClosesNoWriteAfter(es: seq<Effect>)
    requires forall k :: 0 <= k < |es| ==> !es[k].Close?
    ensures NoWriteAfterClose(es)
  {
  }

  /** Appending the closes to a run without closes: the run is kept and no write follows a close. */
  lemma ClosesAfterRun(body: seq<Effect>, closes: seq<Effect>, files: map<uint32, WriterId>)
    requires forall k :: 0 <= k < |body| ==> !body[k].Close?
    requires ClosesEachOnce(closes, files)
    ensures |body| <= |body + closes| && (body + closes)[..|body|] == body
    ensures ClosesEachOnce((body + closes)[|body|..], files)
    ensures NoWriteAfterClose(body + closes)
  {
    assert (body + closes)[|body|..] == closes;
  }

  /**
   * `handleVoice`: drains `packets` (everything the channel delivers until it
   * is closed) and returns the library calls it made and how many packets it
   * took from the channel. On a creation failure it stops right after the
   * first failing packet with no close; otherwise it takes every packet and
   * then closes each writer exactly once, in an unspecified order (Go's map
   * iteration order).
   */
  method HandleVoice(packets: seq<Packet>, createOk: seq<bool>, writeOk: seq<bool>)
    returns (effects: seq<Effect>, consumed: nat)
    requires Results(packets, createOk, writeOk)
    ensures consumed <= |packets|
    ensures var d := Consume(packets, createOk, writeOk, consumed);
      if d.aborted then
        && consumed > 0 && !Consume(packets, createOk, writeOk, consumed - 1).aborted
        && effects == d.effects
      else
        && consumed == |packets|
        && |d.effects| <= |effects| && effects[..|d.effects|] == d.effects
        && ClosesEachOnce(effects[|d.effects|..], d.files)
    ensures NoWriteAfterClose(effects)
  {
    var files: map<uint32, WriterId> := map[];
    var next: WriterId := 0;
    effects := [];
    consumed := 0;
    while consumed < |packets|
      invariant consumed <= |packets|
      invariant Consume(packets, createOk, writeOk, consumed) == Demux(files, next, effects, false)
    {
      var p := packets[consumed];
      consumed := consumed + 1;
      if p.ssrc !in files {
        if !createOk[consumed - 1] {
          effects := effects + [CreateFailed(FileName(p.ssrc), SampleRate, Channels)];
          WriterIdsDistinct(packets, createOk, writeOk, consumed - 1);
          WithoutClosesNoWriteAfter(effects);
          return;
        }
        effects := effects + [Create(next, FileName(p.ssrc), SampleRate, Channels)];
        files := files[p.ssrc := next];
        next := next + 1;
      }
      var frame := CreatePionRtpPacket(p);
      effects := effects + [Write(files[p.ssrc], frame, writeOk[consumed - 1])];
    }

    WriterIdsDistinct(packets, createOk, writeOk, consumed);
    var closes := CloseAll(files);
    ClosesAfterRun(effects, closes, files);
    effects := effects + closes;
  }

  /** The final `for _, f := range files { f.Close() }`; Go visits the map in an unspecified order. */
  method CloseAll(files: map<uint32, WriterId>) returns (closes: seq<Effect>)
    requires forall s, t :: s in files && t in files && s != t ==> files[s] != files[t]
    ensures ClosesEachOnce(closes, files)
  {
    var open := files.Keys;
    closes := [];
    ghost var done: seq<uint32> := [];
    while open != {}
      invariant open <= files.Keys
      invariant |done| == |closes|
      invariant forall k :: 0 <= k < |done| ==> done[k] in files && done[k] !in open && closes[k] == Close(files[done[k]])
      invariant forall j, k :: 0 <= j < k < |done| ==> done[j] != done[k]
      invariant forall s :: s in files && s !in open ==> Close(files[s]) in closes
      decreases |open|
    {
      var s :| s in open;
      closes := closes + [Close(files[s])];
      done := done + [s];
      open := open - {s};
    }
  }
}
