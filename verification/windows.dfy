/** What one enumeration pass learns about a top-level window. Every fact
    that the source reads through a native call (class name, title, owning
    process, bounding rectangle, visibility) is a field here. */
module Windows {
  import opened Common

  /** A native `RECT`: edges in screen coordinates. */
  datatype Rect = Rect(left: int, top: int, right: int, bottom: int)
  {
    function Width(): int { right - left }
    function Height(): int { bottom - top }
  }

  /** One enumerated window.
      - `className`: what `GetClassName` writes into its 256-character buffer;
      - `textLength`: what `GetWindowTextLength` reports;
      - `text`: the full title `GetWindowText` would copy;
      - `processId`: the owner reported by `GetWindowThreadProcessId`;
      - `rect`: what `GetWindowRect` reports;
      - `visible`: what `IsWindowVisible` reports. */
  datatype WindowFacts = WindowFacts(
    handle: Handle,
    className: string,
    textLength: nat,
    text: string,
    processId: nat,
    rect: Rect,
    visible: bool)

  /** The window title as the manager reads it: empty when the reported
      length is zero, otherwise the text copied into a buffer of
      `textLength + 1` characters, which holds at most `textLength` of them. */
  function GetWindowTitle(w: WindowFacts): (title: string)
    ensures w.textLength == 0 ==> title == ""
    ensures |title| <= w.textLength
    ensures title <= w.text
    ensures w.textLength > 0 && |w.text| >= w.textLength ==> |title| == w.textLength
    ensures w.textLength >= |w.text| ==> title == w.text
  {
    if w.textLength == 0 then ""
    else if |w.text| <= w.textLength then w.text
    else w.text[..w.textLength]
  }

  /** The handles of a sequence of facts, in enumeration order. */
  function Handles(facts: seq<WindowFacts>): (hs: seq<Handle>)
    ensures |hs| == |facts|
    ensures forall i :: 0 <= i < |facts| ==> hs[i] == facts[i].handle
  {
    if |facts| == 0 then [] else Handles(facts[..|facts| - 1]) + [facts[|facts| - 1].handle]
  }

  /** The operating system enumerates every window once. */
  predicate DistinctHandles(facts: seq<WindowFacts>)
  {
    NoDup(Handles(facts))
  }
}
