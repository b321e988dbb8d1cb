// The monitors' updateStatus: sample windows and painter paths as mutable fields.
module Monitors {
  import opened SmoothCurveGenerator
  import opened Traces

  // How a monitor with two traces rescales them.
  //   Shared: the network monitors and the compact disk monitor. Two pixels of the render height are
  //           kept free, both traces are divided by the larger of the two peaks, and positive heights
  //           are at least one half.
  //   Own:    the disk monitor. Each trace is divided by its own peak, without a floor.
  datatype Rescaling = Shared | Own

  function StyleFor(rescaling: Rescaling, renderMaxHeight: int): Style {
    Style(if rescaling.Shared? then renderMaxHeight - 2 else renderMaxHeight, rescaling.Shared?, 0.0)
  }

  function Divisor(rescaling: Rescaling, w: seq<real>, other: seq<real>): (d: real)
    ensures Peak(w) <= d
  {
    if rescaling.Shared? && Peak(w) < Peak(other) then Peak(other) else Peak(w)
  }

  // NetworkMonitor and CompactNetworkMonitor (download, upload), CompactDiskMonitor and DiskMonitor
  // (read, write).
  class PairMonitor {
    const rescaling: Rescaling
    const pointsNumber: nat
    const downloadRenderMaxHeight: int
    const uploadRenderMaxHeight: int

    var downloadSpeeds: seq<real>
    var uploadSpeeds: seq<real>
    var downloadPath: Path
    var uploadPath: Path

    // All samples ever received.
    ghost var received: seq<real>
    ghost var sent: seq<real>

    function DownloadStyle(): Style {
      StyleFor(rescaling, downloadRenderMaxHeight)
    }

    function UploadStyle(): Style {
      StyleFor(rescaling, uploadRenderMaxHeight)
    }

    function DownloadDivisor(): (d: real)
      reads this
      ensures Peak(downloadSpeeds) <= d
    {
      Divisor(rescaling, downloadSpeeds, uploadSpeeds)
    }

    function UploadDivisor(): (d: real)
      reads this
      ensures Peak(uploadSpeeds) <= d
    {
      Divisor(rescaling, uploadSpeeds, downloadSpeeds)
    }

    ghost predicate WindowsFollow()
      reads this
    {
      && 0 < DownloadStyle().height && 0 < UploadStyle().height
      && |received| == |sent|
      && downloadSpeeds == Window(received, pointsNumber)
      && uploadSpeeds == Window(sent, pointsNumber)
    }

    // What the painted paths show of the windows, in terms of the samples alone.
    ghost predicate Painted()
      reads this
    {
      && HoldsLatest(downloadSpeeds, received, pointsNumber)
      && HoldsLatest(uploadSpeeds, sent, pointsNumber)
      && (if rescaling.Shared? then
            && Paints(downloadPath, downloadSpeeds, uploadSpeeds, (downloadRenderMaxHeight - 2) as real, true, 0.0)
            && Paints(uploadPath, uploadSpeeds, downloadSpeeds, (uploadRenderMaxHeight - 2) as real, true, 0.0)
          else
            && Paints(downloadPath, downloadSpeeds, [], downloadRenderMaxHeight as real, false, 0.0)
            && Paints(uploadPath, uploadSpeeds, [], uploadRenderMaxHeight as real, false, 0.0))
    }

    // The windows hold the latest samples, and after the first update the paths show the windows.
    ghost predicate Valid()
      reads this
    {
      && WindowsFollow()
      && (received == [] ==> downloadPath == Empty == uploadPath)
      && (received != [] ==>
            && Draws(downloadPath, downloadSpeeds, DownloadDivisor(), DownloadStyle())
            && Draws(uploadPath, uploadSpeeds, UploadDivisor(), UploadStyle()))
    }

    constructor (rescaling: Rescaling, pointsNumber: nat, downloadRenderMaxHeight: int, uploadRenderMaxHeight: int)
      requires (if rescaling.Shared? then 2 else 0) < downloadRenderMaxHeight
      requires (if rescaling.Shared? then 2 else 0) < uploadRenderMaxHeight
      ensures Valid() && received == [] && sent == []
      ensures this.rescaling == rescaling && this.pointsNumber == pointsNumber
      ensures this.downloadRenderMaxHeight == downloadRenderMaxHeight
      ensures this.uploadRenderMaxHeight == uploadRenderMaxHeight
    {
      this.rescaling := rescaling;
      this.pointsNumber := pointsNumber;
      this.downloadRenderMaxHeight := downloadRenderMaxHeight;
      this.uploadRenderMaxHeight := uploadRenderMaxHeight;
      downloadSpeeds, uploadSpeeds := [], [];
      downloadPath, uploadPath := Empty, Empty;
      received, sent := [], [];
      new;
      for i := 0 to pointsNumber
        invariant downloadSpeeds == Zeros(i)
        invariant this.pointsNumber == pointsNumber
        invariant downloadPath == uploadPath == Empty && received == sent == uploadSpeeds == []
      {
        downloadSpeeds := downloadSpeeds + [0.0];
      }
      for i := 0 to pointsNumber
        invariant uploadSpeeds == Zeros(i)
        invariant downloadPath == uploadPath == Empty && received == sent == []
        invariant downloadSpeeds == Zeros(pointsNumber)
      {
        uploadSpeeds := uploadSpeeds + [0.0];
      }
      assert Zeros(pointsNumber) + received == Zeros(pointsNumber);
    }

    method AppendSamples(recvBps: real, sentBps: real)
      requires WindowsFollow()
      modifies `downloadSpeeds, `uploadSpeeds, `received, `sent
      ensures WindowsFollow()
      ensures received == old(received) + [recvBps] && sent == old(sent) + [sentBps]
    {
      downloadSpeeds := PushSample(downloadSpeeds, recvBps, pointsNumber, received);
      uploadSpeeds := PushSample(uploadSpeeds, sentBps, pointsNumber, sent);
      received, sent := received + [recvBps], sent + [sentBps];
    }

    method Redraw()
      requires WindowsFollow()
      modifies `downloadPath, `uploadPath
      ensures Draws(downloadPath, downloadSpeeds, DownloadDivisor(), DownloadStyle())
      ensures Draws(uploadPath, uploadSpeeds, UploadDivisor(), UploadStyle())
    {
      var downloadMaxHeight := MaxHeight(downloadSpeeds);
      var uploadMaxHeight := MaxHeight(uploadSpeeds);
      var maxHeight := if uploadMaxHeight < downloadMaxHeight then downloadMaxHeight else uploadMaxHeight;
      var downloadDivisor := if rescaling.Shared? then maxHeight else downloadMaxHeight;
      var uploadDivisor := if rescaling.Shared? then maxHeight else uploadMaxHeight;
      assert downloadDivisor == DownloadDivisor() && uploadDivisor == UploadDivisor();

      var download := DrawTrace(downloadSpeeds, downloadMaxHeight, downloadDivisor, DownloadStyle());
      var upload := DrawTrace(uploadSpeeds, uploadMaxHeight, uploadDivisor, UploadStyle());
      downloadPath, uploadPath := download, upload;
    }

    // Any samples are accepted, negative ones too; the division is always defined.
    method UpdateStatus(recvBps: real, sentBps: real)
      requires WindowsFollow()
      modifies this
      ensures Valid() && Painted()
      ensures received == old(received) + [recvBps] && sent == old(sent) + [sentBps]
    {
      AppendSamples(recvBps, sentBps);
      Redraw();
      PathsShowWindows();
    }

    // After any number of updates, at least one, the paths show the latest samples.
    lemma PathsShowWindows()
      requires Valid() && received != []
      ensures Painted()
    {
      WindowHoldsLatest(received, pointsNumber);
      WindowHoldsLatest(sent, pointsNumber);
      var download := if rescaling.Shared? then uploadSpeeds else [];
      var upload := if rescaling.Shared? then downloadSpeeds else [];
      DrawnIsPainted(downloadPath, downloadSpeeds, download, DownloadDivisor(), DownloadStyle());
      DrawnIsPainted(uploadPath, uploadSpeeds, upload, UploadDivisor(), UploadStyle());
    }

    // After any number of updates with non-negative samples both painted paths stay close to their strip.
    lemma PaintedNearStrips(i: nat, t: real)
      requires Valid()
      requires forall k: nat | k < |received| :: 0.0 <= received[k] && 0.0 <= sent[k]
      requires 0.0 <= t <= 1.0
      ensures downloadPath.Path? && i < |downloadPath.segments| ==>
                var h := DownloadStyle().height as real;
                && -h <= downloadPath.segments[i].c1.y <= 2.0 * h
                && -h <= downloadPath.segments[i].c2.y <= 2.0 * h
                && -0.75 * h <= CurvePoint(downloadPath, i, t).y <= 1.75 * h
      ensures uploadPath.Path? && i < |uploadPath.segments| ==>
                var h := UploadStyle().height as real;
                && -h <= uploadPath.segments[i].c1.y <= 2.0 * h
                && -h <= uploadPath.segments[i].c2.y <= 2.0 * h
                && -0.75 * h <= CurvePoint(uploadPath, i, t).y <= 1.75 * h
    {
      WindowOfNonnegative(received, pointsNumber);
      WindowOfNonnegative(sent, pointsNumber);
      if downloadPath.Path? && i < |downloadPath.segments| {
        PathStaysNearStrip(downloadPath, downloadSpeeds, DownloadDivisor(), DownloadStyle(), i, t);
      }
      if uploadPath.Path? && i < |uploadPath.segments| {
        PathStaysNearStrip(uploadPath, uploadSpeeds, UploadDivisor(), UploadStyle(), i, t);
      }
    }

    // Both painted paths are graphs, with points five apart.
    lemma PaintedGraphs(i: nat, s: real, j: nat, t: real)
      requires Valid() && 0.0 <= s <= 1.0 && 0.0 <= t <= 1.0
      ensures downloadPath.Path? && i < |downloadPath.segments| && j < |downloadPath.segments| ==>
                && CurvePoint(downloadPath, i, s).x == 5.0 * (i as real + s)
                && (CurvePoint(downloadPath, i, s).x == CurvePoint(downloadPath, j, t).x ==>
                      CurvePoint(downloadPath, i, s) == CurvePoint(downloadPath, j, t))
      ensures uploadPath.Path? && i < |uploadPath.segments| && j < |uploadPath.segments| ==>
                && CurvePoint(uploadPath, i, s).x == 5.0 * (i as real + s)
                && (CurvePoint(uploadPath, i, s).x == CurvePoint(uploadPath, j, t).x ==>
                      CurvePoint(uploadPath, i, s) == CurvePoint(uploadPath, j, t))
    {
      if downloadPath.Path? && i < |downloadPath.segments| && j < |downloadPath.segments| {
        GraphOf(downloadPath, downloadSpeeds, DownloadDivisor(), DownloadStyle(), i, s, j, t);
      }
      if uploadPath.Path? && i < |uploadPath.segments| && j < |uploadPath.segments| {
        GraphOf(uploadPath, uploadSpeeds, UploadDivisor(), UploadStyle(), i, s, j, t);
      }
    }
  }

  lemma GraphOf(path: Path, w: seq<real>, divisor: real, style: Style, i: nat, s: real, j: nat, t: real)
    requires Scales(w, divisor, style) && Draws(path, w, divisor, style)
    requires path.Path? && i < |path.segments| && j < |path.segments|
    requires 0.0 <= s <= 1.0 && 0.0 <= t <= 1.0
    ensures CurvePoint(path, i, s).x == style.offset + 5.0 * (i as real + s)
    ensures CurvePoint(path, i, s).x == CurvePoint(path, j, t).x ==> CurvePoint(path, i, s) == CurvePoint(path, j, t)
  {
    AbscissaIsLinear(path, w, divisor, style, i, s);
    if CurvePoint(path, i, s).x == CurvePoint(path, j, t).x {
      PathIsAGraph(path, w, divisor, style, i, s, j, t);
    }
  }

  lemma WindowOfNonnegative(received: seq<real>, n: nat)
    requires forall k: nat | k < |received| :: 0.0 <= received[k]
    ensures forall k: nat | k < n :: 0.0 <= Window(received, n)[k]
  {
  }

  // CpuMonitor: one trace, drawn 8 to the left, divided by its own peak, without a floor.
  class CpuMonitor {
    const pointsNumber: nat
    const cpuRenderMaxHeight: int

    var cpuPercents: seq<real>
    var cpuPath: Path
    ghost var received: seq<real>

    function CpuStyle(): Style {
      Style(cpuRenderMaxHeight, false, -8.0)
    }

    ghost predicate Valid()
      reads this
    {
      && 0 < cpuRenderMaxHeight
      && cpuPercents == Window(received, pointsNumber)
      && (received == [] ==> cpuPath == Empty)
      && (received != [] ==> Draws(cpuPath, cpuPercents, Peak(cpuPercents), CpuStyle()))
    }

    // What the painted path shows of the window, in terms of the samples alone.
    ghost predicate Painted()
      reads this
    {
      && HoldsLatest(cpuPercents, received, pointsNumber)
      && Paints(cpuPath, cpuPercents, [], cpuRenderMaxHeight as real, false, -8.0)
    }

    constructor (pointsNumber: nat, cpuRenderMaxHeight: int)
      requires 0 < cpuRenderMaxHeight
      ensures Valid() && received == []
      ensures this.pointsNumber == pointsNumber && this.cpuRenderMaxHeight == cpuRenderMaxHeight
    {
      this.pointsNumber := pointsNumber;
      this.cpuRenderMaxHeight := cpuRenderMaxHeight;
      cpuPercents, cpuPath, received := [], Empty, [];
      new;
      for i := 0 to pointsNumber
        invariant cpuPercents == Zeros(i) && cpuPath == Empty && received == []
      {
        cpuPercents := cpuPercents + [0.0];
      }
      assert Zeros(pointsNumber) + received == Zeros(pointsNumber);
    }

    method UpdateStatus(cpuPercent: real)
      requires Valid()
      modifies this
      ensures Valid() && Painted()
      ensures received == old(received) + [cpuPercent]
    {
      cpuPercents := PushSample(cpuPercents, cpuPercent, pointsNumber, received);
      received := received + [cpuPercent];
      var cpuMaxHeight := MaxHeight(cpuPercents);
      cpuPath := DrawTrace(cpuPercents, cpuMaxHeight, cpuMaxHeight, CpuStyle());
      PathShowsWindow();
    }

    // After any number of updates, at least one, the path shows the latest samples.
    lemma PathShowsWindow()
      requires Valid() && received != []
      ensures Painted()
    {
      WindowHoldsLatest(received, pointsNumber);
      DrawnIsPainted(cpuPath, cpuPercents, [], Peak(cpuPercents), CpuStyle());
    }

    // After any number of updates with non-negative samples the painted path is a graph near its strip.
    lemma PaintedGraphNearStrip(i: nat, s: real, j: nat, t: real)
      requires Valid() && 0.0 <= s <= 1.0 && 0.0 <= t <= 1.0
      requires cpuPath.Path? && i < |cpuPath.segments| && j < |cpuPath.segments|
      ensures CurvePoint(cpuPath, i, s).x == 5.0 * (i as real + s) - 8.0
      ensures CurvePoint(cpuPath, i, s).x == CurvePoint(cpuPath, j, t).x ==>
                CurvePoint(cpuPath, i, s) == CurvePoint(cpuPath, j, t)
      ensures (forall k: nat | k < |received| :: 0.0 <= received[k]) ==>
                var h := cpuRenderMaxHeight as real;
                && -h <= cpuPath.segments[i].c1.y <= 2.0 * h
                && -h <= cpuPath.segments[i].c2.y <= 2.0 * h
                && -0.75 * h <= CurvePoint(cpuPath, i, s).y <= 1.75 * h
    {
      GraphOf(cpuPath, cpuPercents, Peak(cpuPercents), CpuStyle(), i, s, j, t);
      if forall k: nat | k < |received| :: 0.0 <= received[k] {
        WindowOfNonnegative(received, pointsNumber);
        PathStaysNearStrip(cpuPath, cpuPercents, Peak(cpuPercents), CpuStyle(), i, s);
      }
    }
  }
}
