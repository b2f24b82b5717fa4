/**
 * The GStreamer still-image capture control: request ids, the accept/reject
 * rule for a capture, automatic `img_NNNN.jpg` naming, and readiness tracking.
 *
 * The capture session the control talks to is a plain object holding its
 * state, pending state and capture mode; the captureImage calls it receives
 * are appended to a log. The error the control posts to its event loop is
 * appended to a queue, and readyForCaptureChanged emissions to another log.
 */
module ImageCapture {

  /** The capture session's pipeline states. */
  datatype State = StoppedState | PreviewState | PausedState | RecordingState

  /** The capture-mode flags; a session's capture mode is a set of them. */
  datatype CaptureMode = Audio | Video | Image

  /** The error kinds of still-image capture. */
  datatype CaptureErrorKind =
    | NoError | NotReadyError | ResourceError | OutOfSpaceError | NotSupportedFeatureError | FormatError

  /** An error notification: request id, kind and message. */
  datatype CaptureError = CaptureError(id: int, error: CaptureErrorKind, message: string)

  /** A captureImage(id, path) call made on the session. */
  datatype CaptureRequest = CaptureRequest(id: int, path: string)

  /** The message of the error a rejected capture posts. */
  const NotReadyMessage: string := "Not ready to capture"

  // ---------------------------------------------------------------------
  // Decimal text, as QString::toInt and QString::arg use it here

  predicate IsDigit(c: char) {
    '0' <= c <= '9'
  }

  predicate IsDigits(s: string) {
    forall i :: 0 <= i < |s| ==> IsDigit(s[i])
  }

  /** The value of a string of decimal digits (0 for the empty string). */
  function DigitsValue(s: string): nat
    requires IsDigits(s)
  {
    if s == [] then 0
    else DigitsValue(s[..|s| - 1]) * 10 + (s[|s| - 1] as int - '0' as int)
  }

  /** QString::toInt on the names seen here: an all-digit string gives its
      value, anything else (the empty string included) gives 0. */
  function ToInt(s: string): (n: nat)
    ensures !IsDigits(s) || s == [] ==> n == 0
  {
    if IsDigits(s) then DigitsValue(s) else 0
  }

  function DigitChar(d: nat): char
    requires d < 10
  {
    ('0' as int + d) as char
  }

  /** The shortest decimal text of n: no leading zero except in "0" itself. */
  function DecimalString(n: nat): (s: string)
    ensures |s| >= 1 && IsDigits(s) && DigitsValue(s) == n
    ensures |s| == 1 || s[0] != '0'
    ensures n >= 1 ==> s[0] != '0'
  {
    if n < 10 then [DigitChar(n)]
    else
      var front := DecimalString(n / 10);
      var s := front + [DigitChar(n % 10)];
      assert s[..|s| - 1] == front;
      s
  }

  /** s padded on the left with `fill` to at least `width` characters; a
      longer s is kept whole. */
  function PadLeft(s: string, width: nat, fill: char): (r: string)
    ensures |r| == if |s| >= width then |s| else width
    ensures r[|r| - |s|..] == s
    ensures forall i :: 0 <= i < |r| - |s| ==> r[i] == fill
  {
    if |s| >= width then s else seq(width - |s|, _ => fill) + s
  }

  /** Leading zeros do not change a decimal value. */
  lemma {:induction false} LeadingZeros(z: string, s: string)
    requires IsDigits(s) && forall i :: 0 <= i < |z| ==> z[i] == '0'
    ensures IsDigits(z + s) && DigitsValue(z + s) == DigitsValue(s)
    decreases |s|, |z|
  {
    if s == [] {
      assert z + s == z;
      if z != [] {
        LeadingZeros(z[..|z| - 1], s);
        assert (z + s)[..|z + s| - 1] == z[..|z| - 1] + s;
      }
    } else {
      var front := s[..|s| - 1];
      LeadingZeros(z, front);
      assert (z + s)[..|z + s| - 1] == z + front;
    }
  }

  // ---------------------------------------------------------------------
  // Automatic file names

  /** QString::mid(position, n) for a position that is not negative: empty
      past the end; the rest of the string when n is negative or too long. */
  function Mid(s: string, position: nat, n: int): (r: string)
    ensures position <= |s| && 0 <= n <= |s| - position ==> r == s[position..position + n]
    ensures |r| <= |s|
  {
    if position > |s| then ""
    else if n < 0 || n > |s| - position then s[position..]
    else s[position..position + n]
  }

  /** The number a listed file name carries: the text between `img_` and `.jpg`, read as an integer. */
  function ImageNumber(name: string): (n: nat)
    ensures MatchesImagePattern(name) && IsDigits(name[4..|name| - 4]) ==> n == DigitsValue(name[4..|name| - 4])
    ensures MatchesImagePattern(name) && !IsDigits(name[4..|name| - 4]) ==> n == 0
  {
    ToInt(Mid(name, 4, |name| - 8))
  }

  /** A name of the form `img_…jpg`: the `img_` prefix, the `.jpg` suffix, and
      anything (possibly nothing) between them. */
  predicate MatchesImagePattern(name: string) {
    |name| >= 8 && name[..4] == "img_" && name[|name| - 4..] == ".jpg"
  }

  /** `img_` + n with at least four digits, zero-padded + `.jpg`. */
  function ImageFileName(n: nat): (name: string)
    ensures MatchesImagePattern(name) && |name| >= 12
    ensures IsDigits(name[4..|name| - 4])
  {
    var name := "img_" + PadLeft(DecimalString(n), 4, '0') + ".jpg";
    assert name[4..|name| - 4] == PadLeft(DecimalString(n), 4, '0');
    name
  }

  /** A generated name has the form `img_…jpg` and reads back as its number. */
  lemma ImageFileNameRoundTrip(n: nat)
    ensures MatchesImagePattern(ImageFileName(n))
    ensures ImageNumber(ImageFileName(n)) == n
  {
    var digits := DecimalString(n);
    var padded := PadLeft(digits, 4, '0');
    var name := ImageFileName(n);
    var zeros := padded[..|padded| - |digits|];
    assert padded == zeros + digits;
    LeadingZeros(zeros, digits);
    assert name[4..|name| - 4] == padded;
    assert name[..4] == "img_";
    assert name[|name| - 4..] == ".jpg";
  }

  /** The largest number among the listed names, 0 for none. */
  function MaxImageNumber(listing: seq<string>): (m: nat)
    ensures forall e :: e in listing ==> ImageNumber(e) <= m
    ensures m == 0 || exists e :: e in listing && ImageNumber(e) == m
  {
    if listing == [] then 0
    else
      var front := listing[..|listing| - 1];
      var last := listing[|listing| - 1];
      assert listing == front + [last];
      var m := MaxImageNumber(front);
      if ImageNumber(last) > m then ImageNumber(last) else m
  }

  /** The name a capture without a file name gets, from scanning the listing
      of `img_*.jpg` files in the current directory. */
  method AutoImagePath(listing: seq<string>) returns (path: string)
    ensures path == ImageFileName(MaxImageNumber(listing) + 1)
    ensures MatchesImagePattern(path)
    ensures forall e :: e in listing ==> ImageNumber(e) < ImageNumber(path)
    ensures path !in listing
  {
    var lastImage := 0;
    var i := 0;
    while i < |listing|
      invariant 0 <= i <= |listing|
      invariant lastImage == MaxImageNumber(listing[..i])
    {
      var imgNumber := ImageNumber(listing[i]);
      ghost var seen := listing[..i + 1];
      assert seen[..i] == listing[..i] && seen[i] == listing[i];
      lastImage := if lastImage > imgNumber then lastImage else imgNumber;
      assert lastImage == MaxImageNumber(seen);
      i := i + 1;
    }
    assert listing[..i] == listing;
    path := ImageFileName(lastImage + 1);
    ImageFileNameRoundTrip(lastImage + 1);
    assert forall e :: e in listing ==> ImageNumber(e) < ImageNumber(path);
  }

  /** With img_0001.jpg and img_0003.jpg present the next name is img_0004.jpg. */
  lemma AutoNameExample()
    ensures ImageFileName(MaxImageNumber(["img_0001.jpg", "img_0003.jpg"]) + 1) == "img_0004.jpg"
  {
    var listing := ["img_0001.jpg", "img_0003.jpg"];
    assert Mid(listing[0], 4, 4) == "0001";
    assert Mid(listing[1], 4, 4) == "0003";
    assert DigitsValue("0001") == 1 by {
      assert "0001"[..3] == "000" && "000"[..2] == "00" && "00"[..1] == "0" && "0"[..0] == "";
    }
    assert DigitsValue("0003") == 3 by {
      assert "0003"[..3] == "000" && "000"[..2] == "00" && "00"[..1] == "0" && "0"[..0] == "";
    }
    assert ImageNumber(listing[0]) == 1 && ImageNumber(listing[1]) == 3;
    assert [listing[0]] == listing[..1];
    assert MaxImageNumber(listing) == 3;
    assert DecimalString(4) == "4";
    assert PadLeft("4", 4, '0') == "0004";
  }

  /** The padding is a minimum width: number 10000 gets five digits. */
  lemma WideImageNumber()
    ensures ImageFileName(10000) == "img_10000.jpg"
  {
    assert DecimalString(10000) == "10000" by {
      assert DecimalString(1) == "1";
      assert DecimalString(10) == "10";
      assert DecimalString(100) == "100";
      assert DecimalString(1000) == "1000";
    }
  }

  // ---------------------------------------------------------------------
  // The session and the control

  /** A capture is accepted unless the session is about to be stopped or is not in image mode. */
  predicate AcceptsCapture(pendingState: State, mode: set<CaptureMode>) {
    pendingState != StoppedState && Image in mode
  }

  /** The control is ready when the session is previewing in image mode. */
  predicate ReadyFor(state: State, mode: set<CaptureMode>)
    ensures ReadyFor(state, mode) ==> AcceptsCapture(state, mode)
  {
    state == PreviewState && Image in mode
  }

  /** The part of the capture session the control uses. */
  class CaptureSession {
    var state: State
    var pendingState: State
    var captureMode: set<CaptureMode>
    /** Every captureImage(id, path) call the session has received, oldest first. */
    var requests: seq<CaptureRequest>

    constructor (state: State, pendingState: State, captureMode: set<CaptureMode>)
      ensures this.state == state && this.pendingState == pendingState
      ensures this.captureMode == captureMode && requests == []
    {
      this.state := state;
      this.pendingState := pendingState;
      this.captureMode := captureMode;
      requests := [];
    }

    method CaptureImage(id: int, path: string)
      modifies this
      ensures requests == old(requests) + [CaptureRequest(id, path)]
      ensures state == old(state) && pendingState == old(pendingState)
      ensures captureMode == old(captureMode)
    {
      requests := requests + [CaptureRequest(id, path)];
    }
  }

  class ImageCaptureControl {
    const session: CaptureSession
    var ready: bool
    var lastId: nat
    /** Errors posted to the event loop; each is delivered after the capture call that posted it returns. */
    var queuedErrors: seq<CaptureError>
    /** The argument of every readyForCaptureChanged emission, oldest first. */
    var readyChanged: seq<bool>

    /** A new control: not ready, and no request id handed out yet. */
    constructor (session: CaptureSession)
      ensures this.session == session
      ensures !ready && lastId == 0 && queuedErrors == [] && readyChanged == []
      ensures Valid()
    {
      this.session := session;
      ready := false;
      lastId := 0;
      queuedErrors := [];
      readyChanged := [];
    }

    /** The argument of the last readyForCaptureChanged emission, false before any. */
    function LastAnnounced(): bool
      reads this
    {
      readyChanged != [] && readyChanged[|readyChanged| - 1]
    }

    /** The stored flag is the value last announced through readyForCaptureChanged. */
    predicate Valid()
      reads this
    {
      ready == LastAnnounced()
    }

    /** The stored readiness flag, as the last UpdateState left it; it is not
        recomputed from the session's current state. */
    function IsReadyForCapture(): (r: bool)
      reads this
      ensures r == ready
      ensures Valid() ==> r == LastAnnounced()
    {
      ready
    }

    /** Request a capture to `fileName`, or to an automatic name when it is
        empty; `listing` holds the `img_*.jpg` names in the current directory.
        Every call takes the next request id. A capture the session cannot take
        queues one NotReadyError with that id and reaches no captureImage;
        otherwise the session gets exactly one captureImage with that id. */
    method Capture(fileName: string, listing: seq<string>) returns (id: int)
      modifies this, session
      ensures id == old(lastId) + 1 && lastId == id
      ensures ready == old(ready) && readyChanged == old(readyChanged)
      ensures old(Valid()) ==> Valid()
      ensures session.state == old(session.state) && session.pendingState == old(session.pendingState)
      ensures session.captureMode == old(session.captureMode)
      ensures !AcceptsCapture(old(session.pendingState), old(session.captureMode)) ==>
                && queuedErrors == old(queuedErrors) + [CaptureError(id, NotReadyError, NotReadyMessage)]
                && session.requests == old(session.requests)
      ensures AcceptsCapture(old(session.pendingState), old(session.captureMode)) ==>
                && queuedErrors == old(queuedErrors)
                && session.requests == old(session.requests) +
                     [CaptureRequest(id, if fileName != "" then fileName else ImageFileName(MaxImageNumber(listing) + 1))]
    {
      lastId := lastId + 1;
      if session.pendingState == StoppedState || Image !in session.captureMode {
        queuedErrors := queuedErrors + [CaptureError(lastId, NotReadyError, NotReadyMessage)];
        return lastId;
      }
      var path := fileName;
      if path == "" {
        path := AutoImagePath(listing);
      }
      session.CaptureImage(lastId, path);
      return lastId;
    }

    /** Cancelling is not supported: nothing changes. */
    method CancelCapture()
      ensures unchanged(this, session)
    {
    }

    /** The session's state changed: recompute readiness from its current state
        and capture mode, and emit readyForCaptureChanged only on a change. */
    method UpdateState()
      modifies this
      ensures ready == ReadyFor(session.state, session.captureMode)
      ensures readyChanged == old(readyChanged) + (if old(ready) != ready then [ready] else [])
      ensures lastId == old(lastId) && queuedErrors == old(queuedErrors)
      ensures old(Valid()) ==> Valid()
    {
      var nowReady := session.state == PreviewState && Image in session.captureMode;
      if ready != nowReady {
        ready := nowReady;
        readyChanged := readyChanged + [ready];
      }
    }
  }

  /** On a fresh control the first capture gets id 1 and the next one id 2,
      whether or not either is accepted. */
  method FirstCaptureIds(session: CaptureSession, name1: string, name2: string, listing: seq<string>)
      returns (id1: int, id2: int)
    modifies session
    ensures id1 == 1 && id2 == 2
  {
    var control := new ImageCaptureControl(session);
    id1 := control.Capture(name1, listing);
    id2 := control.Capture(name2, listing);
  }

  /** The same session state reported twice emits readyForCaptureChanged at most once. */
  method UpdateStateTwice(control: ImageCaptureControl)
    modifies control
    ensures |control.readyChanged| <= |old(control.readyChanged)| + 1
    ensures control.IsReadyForCapture() == ReadyFor(control.session.state, control.session.captureMode)
  {
    control.UpdateState();
    ghost var between := control.readyChanged;
    control.UpdateState();
    assert control.readyChanged == between;
  }
}
