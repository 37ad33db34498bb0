/**
 Recording one captured image against an exposure request of a stored
 project.
 */
module Progress {
  import opened ProjectTypes

  /** The record after one image `filename` was captured for exposure `k`:
      the filename is appended to that exposure's list and its remaining
      count drops by one, with no floor at zero. */
  function RecordCapture(p: Project, k: nat, filename: string): (q: Project)
    requires k < |p.projectData| && k < |p.remaining|
    ensures |q.projectData| == |p.projectData| && |q.remaining| == |p.remaining|
    ensures q.projectData[k] == p.projectData[k] + [filename]
    ensures q.remaining[k] == p.remaining[k] - 1
    ensures forall i :: 0 <= i < |p.projectData| && i != k ==> q.projectData[i] == p.projectData[i]
    ensures forall i :: 0 <= i < |p.remaining| && i != k ==> q.remaining[i] == p.remaining[i]
    ensures q == p.(projectData := q.projectData, remaining := q.remaining)
  {
    p.(projectData := p.projectData[k := p.projectData[k] + [filename]],
       remaining := p.remaining[k := p.remaining[k] - 1])
  }

  /** Recording a capture keeps the arrays aligned and keeps, for every
      exposure, captured images plus remaining equal to the requested count. */
  lemma RecordCaptureKeepsAccounting(p: Project, k: nat, filename: string)
    requires Aligned(p) && Accounted(p) && k < |p.exposures|
    ensures Aligned(RecordCapture(p, k, filename)) && Accounted(RecordCapture(p, k, filename))
  {
    var q := RecordCapture(p, k, filename);
    assert |q.projectData[k]| == |p.projectData[k]| + 1;
  }

  /** The remaining count is not floored: a capture past the requested
      number drives it below zero. */
  lemma RecordCaptureGoesNegative(p: Project, filename: string)
    requires p.projectData == [[]] && p.remaining == [0]
    ensures RecordCapture(p, 0, filename).remaining == [-1]
    ensures RecordCapture(p, 0, filename).projectData == [[filename]]
  {
    assert [] + [filename] == [filename];
  }
}
