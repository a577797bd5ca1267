/** The status that reaches the client through each of the three response writers of module
    CompressWriters. */
module CompressStatus {
  import opened CompressWriters
  import opened GoInts
  import opened Responses
  import opened Wrappers

  /** The code of the first WriteHeader with a final status. */
  function FirstFinal(acts: seq<Act>): Option<Status> {
    if acts == [] then None
    else if FirstFinal(acts[..|acts| - 1]).Some? then FirstFinal(acts[..|acts| - 1])
    else if SendsFinal(acts[|acts| - 1]) then Some(acts[|acts| - 1].code)
    else None
  }

  /** The code of the last WriteHeader of any kind. */
  function LastCode(acts: seq<Act>): Option<Status> {
    if acts == [] then None
    else if acts[|acts| - 1].WriteHeader? then Some(acts[|acts| - 1].code)
    else LastCode(acts[..|acts| - 1])
  }

  /** A header never sent goes out with 200 when the handler returns. */
  function StatusOf(r: Response): Status {
    if r.sent.Some? then r.sent.value.0 else 200
  }

  lemma {:induction false} EarlyIsFirst(acts: seq<Act>)
    ensures EarlyHeader(acts) ==> FirstFinal(acts).Some?
  {
    if acts != [] {
      EarlyIsFirst(acts[..|acts| - 1]);
    }
  }

  lemma {:induction false} BeforeIsFirst(n: nat, acts: seq<Act>)
    ensures HeaderBefore(n, acts) ==> FirstFinal(acts).Some?
    ensures |Written(acts)| < n && FirstFinal(acts).Some? ==> HeaderBefore(n, acts)
  {
    if acts != [] {
      BeforeIsFirst(n, acts[..|acts| - 1]);
    }
  }

  lemma {:induction false} EarlyWithoutBody(acts: seq<Act>)
    ensures Written(acts) == [] ==> (EarlyHeader(acts) <==> FirstFinal(acts).Some?)
  {
    if acts != [] {
      EarlyWithoutBody(acts[..|acts| - 1]);
    }
  }

  function EarlyStatus(acts: seq<Act>): Status {
    if EarlyHeader(acts) && FirstFinal(acts).Some? then FirstFinal(acts).value else 200
  }

  lemma {:induction false} RunStatus(c: Setting, preset: Option<Encoding>, acts: seq<Act>)
    requires c.minSize > 0
    ensures var r := Run(c, preset, acts).resp; r.sent.Some? ==> r.sent.value.0 == EarlyStatus(acts)
  {
    if acts != [] {
      var front, a := acts[..|acts| - 1], acts[|acts| - 1];
      RunStatus(c, preset, front);
      RunFollows(c, preset, front);
      EarlyIsFirst(front);
      EarlyWithoutBody(front);
      HeaderInsideSmall(c.minSize, front);
      StepStatus(c, preset, acts, Run(c, preset, front));
    }
  }

  lemma StepStatus(c: Setting, preset: Option<Encoding>, acts: seq<Act>, w: Writer)
    requires c.minSize > 0 && acts != []
    requires var front := acts[..|acts| - 1];
             && Tracks(c, w, Written(front)) && Follows(c, preset, front, w)
             && (EarlyHeader(front) ==> FirstFinal(front).Some?)
             && (Written(front) == [] ==> (EarlyHeader(front) <==> FirstFinal(front).Some?))
             && (w.resp.sent.Some? ==> w.resp.sent.value.0 == EarlyStatus(front))
    ensures var r := Step(c, w, acts[|acts| - 1]).resp; r.sent.Some? ==> r.sent.value.0 == EarlyStatus(acts)
  {
  }

  /** compress/compress.go: the first final status, if it came before the first byte of the body, else 200. */
  lemma StatusKept(c: Setting, preset: Option<Encoding>, acts: seq<Act>)
    requires c.minSize > 0
    ensures StatusOf(Close(c, Run(c, preset, acts)).resp) ==
            if EarlyHeader(acts) && FirstFinal(acts).Some? then FirstFinal(acts).value else 200
    ensures EarlyHeader(acts) ==> FirstFinal(acts).Some?
  {
    RunFollows(c, preset, acts);
    RunStatus(c, preset, acts);
    EarlyIsFirst(acts);
  }

  lemma {:induction false} HttpxRunStatus(c: Setting, preset: Option<Encoding>, acts: seq<Act>)
    requires c.minSize > 0
    ensures var r := HttpxRun(c, preset, acts).resp;
            r.sent.Some? ==> r.sent.value.0 == if HeaderBefore(c.minSize, acts) && FirstFinal(acts).Some? then FirstFinal(acts).value else 200
  {
    if acts != [] {
      var front := acts[..|acts| - 1];
      HttpxRunStatus(c, preset, front);
      HttpxRunFollows(c, preset, front);
      BeforeIsFirst(c.minSize, front);
      BeforeIsFirst(c.minSize, acts);
    }
  }

  /** httpx/compress.go: the same, if it came before the body reached the threshold. */
  lemma HttpxStatusKept(c: Setting, preset: Option<Encoding>, acts: seq<Act>)
    requires c.minSize > 0
    ensures StatusOf(HttpxFlush(c, HttpxRun(c, preset, acts)).resp) ==
            if HeaderBefore(c.minSize, acts) && FirstFinal(acts).Some? then FirstFinal(acts).value else 200
    ensures HeaderBefore(c.minSize, acts) ==> FirstFinal(acts).Some?
  {
    HttpxRunFollows(c, preset, acts);
    HttpxRunStatus(c, preset, acts);
    BeforeIsFirst(c.minSize, acts);
  }

  lemma {:induction false} DeferRunCode(acts: seq<Act>)
    ensures DeferRun(acts).status == if LastCode(acts).Some? then LastCode(acts).value else 0
  {
    if acts != [] {
      DeferRunCode(acts[..|acts| - 1]);
    }
  }

  /** middleware/compress.go: the last code, wherever it came, or 200 if that is informational or there was
      none; and it is sent once the handler has returned. */
  lemma DeferredStatusKept(c: Setting, preset: Option<Encoding>, acts: seq<Act>)
    ensures var r := DeferFlush(c, preset, DeferRun(acts));
            r.sent.Some? && r.sent.value.0 == if LastCode(acts).Some? && Final(LastCode(acts).value) then LastCode(acts).value else 200
  {
    DeferRunCode(acts);
  }
}
