/**
 The global error toast: lib/query-error-handling.ts decides, and toastGlobalError in
 lib/providers.tsx remembers when each toast was last shown.
 */
module ToastThrottle {
  import opened Basics

  const GLOBAL_ERROR_TOAST_DEDUPE_MS := 10000
  const INVALID_SHAPE_TITLE := "Invalid server response"
  const FAILED_TITLE := "Request failed"
  const DEFAULT_ERROR_MESSAGE := "Something went wrong. Please try again."

  datatype Toast = Toast(title: string, description: string)

  /** An API error carries the text of its status, or nothing for a zero or absent status. */
  datatype AppError =
    | ApiError(code: string, status: string, message: string)
    | PlainError(message: string)
    | Unknown

  function Details(code: string, status: string): string {
    if code != "" && status != "" then code + " · HTTP " + status
    else if status != "" then "HTTP " + status
    else code
  }

  function ToastOf(error: AppError): Toast {
    match error
    case ApiError(code, status, message) =>
      Toast(if code == "INVALID_RESPONSE_SHAPE" then INVALID_SHAPE_TITLE else FAILED_TITLE,
            if Details(code, status) != "" then message + " (" + Details(code, status) + ")" else message)
    case PlainError(message) => Toast(FAILED_TITLE, if message != "" then message else DEFAULT_ERROR_MESSAGE)
    case Unknown => Toast(FAILED_TITLE, DEFAULT_ERROR_MESSAGE)
  }

  function Signature(toast: Toast): string {
    toast.title + "\n" + toast.description
  }

  predicate ShouldEmit(last: Option<int>, now: int) {
    last.None? || now - last.value >= GLOBAL_ERROR_TOAST_DEDUPE_MS
  }

  /** The texts of the toasts: the message, with the code and the status in parentheses where there are any. */
  lemma ToastTexts(code: string, status: string, message: string)
    ensures ToastOf(ApiError(code, status, message)).title ==
      if code == "INVALID_RESPONSE_SHAPE" then "Invalid server response" else "Request failed"
    ensures ToastOf(ApiError("", "", message)).description == message
    ensures code != "" ==> ToastOf(ApiError(code, "", message)).description == message + " (" + code + ")"
    ensures status != "" ==> ToastOf(ApiError("", status, message)).description == message + " (HTTP " + status + ")"
    ensures code != "" && status != "" ==>
      ToastOf(ApiError(code, status, message)).description == message + " (" + code + " · HTTP " + status + ")"
    ensures ToastOf(PlainError(message)) ==
      Toast("Request failed", if message == "" then "Something went wrong. Please try again." else message)
    ensures ToastOf(Unknown) == ToastOf(PlainError(""))
  {
    assert message + " (" + ("HTTP " + status) + ")" == message + " (HTTP " + status + ")";
    assert message + " (" + (code + " · HTTP " + status) + ")" == message + " (" + code + " · HTTP " + status + ")";
  }

  lemma TitleIsOneLine(error: AppError)
    ensures '\n' !in ToastOf(error).title
  {
    assert '\n' !in INVALID_SHAPE_TITLE;
    assert '\n' !in FAILED_TITLE;
    assert ToastOf(error).title == INVALID_SHAPE_TITLE || ToastOf(error).title == FAILED_TITLE;
  }

  /** Titles hold no line feed, so a signature determines its toast. */
  lemma SignatureIsInjective(a: AppError, b: AppError)
    requires Signature(ToastOf(a)) == Signature(ToastOf(b))
    ensures ToastOf(a) == ToastOf(b)
  {
    TitleIsOneLine(a);
    TitleIsOneLine(b);
    FirstFeedCuts(ToastOf(a), ToastOf(b));
  }

  lemma FirstFeedCuts(a: Toast, b: Toast)
    requires '\n' !in a.title && '\n' !in b.title && Signature(a) == Signature(b)
    ensures a == b
  {
    var s := Signature(a);
    assert s[|a.title|] == '\n' && s[|b.title|] == '\n';
    assert s[..|a.title|] == a.title && s[..|b.title|] == b.title;
    assert s[|a.title| + 1..] == a.description && s[|b.title| + 1..] == b.description;
  }

  // ---------------------------------------------------------------- traces

  datatype Reported = Reported(error: AppError, now: int)

  /** When each signature was last shown, after a trace of reported errors. */
  function LastShown(trace: seq<Reported>): map<string, int> {
    if trace == [] then map[]
    else
      var before, r := LastShown(trace[..|trace| - 1]), trace[|trace| - 1];
      if Emits(before, r) then before[Signature(ToastOf(r.error)) := r.now] else before
  }

  function LastOf(shown: map<string, int>, signature: string): Option<int> {
    if signature in shown then Some(shown[signature]) else None
  }

  predicate Emits(shown: map<string, int>, r: Reported) {
    ShouldEmit(LastOf(shown, Signature(ToastOf(r.error))), r.now)
  }

  predicate EmittedAt(trace: seq<Reported>, i: nat)
    requires i < |trace|
  {
    Emits(LastShown(trace[..i]), trace[i])
  }

  predicate SameToast(trace: seq<Reported>, i: nat, j: nat)
    requires i < |trace| && j < |trace|
  {
    ToastOf(trace[i].error) == ToastOf(trace[j].error)
  }

  class Throttle {
    var lastShownAt: map<string, int>
    var shown: seq<Toast>

    constructor ()
      ensures lastShownAt == map[] && shown == []
    {
      lastShownAt, shown := map[], [];
    }

    method ToastGlobalError(error: AppError, now: int, ghost trace: seq<Reported>)
      requires lastShownAt == LastShown(trace)
      modifies this
      ensures lastShownAt == LastShown(trace + [Reported(error, now)])
      ensures shown ==
        if Emits(LastShown(trace), Reported(error, now)) then old(shown) + [ToastOf(error)] else old(shown)
    {
      assert (trace + [Reported(error, now)])[..|trace|] == trace;
      var toast := ToastOf(error);
      var signature := Signature(toast);
      if !ShouldEmit(LastOf(lastShownAt, signature), now) {
        return;
      }
      lastShownAt := lastShownAt[signature := now];
      shown := shown + [toast];
    }
  }

  predicate EmissionOf(trace: seq<Reported>, i: nat, signature: string)
    requires i < |trace|
  {
    Signature(ToastOf(trace[i].error)) == signature && EmittedAt(trace, i)
  }

  lemma MemoryStep(trace: seq<Reported>, m: nat, signature: string)
    requires m < |trace|
    ensures LastOf(LastShown(trace[..m + 1]), signature) ==
      if EmissionOf(trace, m, signature) then Some(trace[m].now) else LastOf(LastShown(trace[..m]), signature)
  {
    assert trace[..m + 1][..m] == trace[..m];
    assert trace[..m + 1][m] == trace[m];
  }

  /** The time of the latest emission of a signature among the first n errors, if there is one. */
  ghost predicate IsLatest(trace: seq<Reported>, n: nat, signature: string, last: Option<int>)
    requires n <= |trace|
  {
    match last
    case None => forall i | 0 <= i < n :: !EmissionOf(trace, i, signature)
    case Some(time) =>
      && (exists i :: 0 <= i < n && EmissionOf(trace, i, signature) && trace[i].now == time)
      && (forall i | 0 <= i < n && EmissionOf(trace, i, signature) :: trace[i].now <= time)
  }

  /** Which errors emit the toast with this signature. */
  function EmissionsOf(trace: seq<Reported>, signature: string): seq<bool> {
    seq(|trace|, i requires 0 <= i < |trace| => EmissionOf(trace, i, signature))
  }

  function LatestTrue(marks: seq<bool>, n: nat): (latest: Option<nat>)
    requires n <= |marks|
    ensures latest.Some? ==> latest.value < n && marks[latest.value]
  {
    if n == 0 then None else if marks[n - 1] then Some(n - 1) else LatestTrue(marks, n - 1)
  }

  /** The latest emission itself, found from the end. */
  function LatestEmission(trace: seq<Reported>, n: nat, signature: string): (latest: Option<nat>)
    requires n <= |trace|
    ensures latest.Some? ==> latest.value < n
  {
    LatestTrue(EmissionsOf(trace, signature), n)
  }

  function TimeAt(trace: seq<Reported>, i: Option<nat>): Option<int>
    requires i.Some? ==> i.value < |trace|
  {
    if i.Some? then Some(trace[i.value].now) else None
  }

  lemma {:induction false} MemoryOfLatest(trace: seq<Reported>, n: nat, signature: string)
    requires n <= |trace|
    ensures LastOf(LastShown(trace[..n]), signature) == TimeAt(trace, LatestEmission(trace, n, signature))
  {
    if n == 0 {
      assert trace[..n] == [];
    } else {
      MemoryOfLatest(trace, n - 1, signature);
      MemoryStep(trace, n - 1, signature);
    }
  }

  /** From one emission of a signature to the next at least ten seconds pass. */
  lemma NextEmission(trace: seq<Reported>, m: nat, signature: string)
    requires m < |trace| && EmissionOf(trace, m, signature)
    ensures var before := LatestEmission(trace, m, signature);
      before.Some? ==> trace[m].now - trace[before.value].now >= GLOBAL_ERROR_TOAST_DEDUPE_MS
  {
    MemoryOfLatest(trace, m, signature);
  }

  /** If times rise from each mark to the next, the latest mark is the latest in time. */
  lemma {:induction false} LatestTrueIsLatest(marks: seq<bool>, times: seq<int>, i: nat, n: nat)
    requires i < n <= |marks| == |times| && marks[i]
    requires forall m | 0 <= m < |marks| && marks[m] && LatestTrue(marks, m).Some? ::
      times[LatestTrue(marks, m).value] <= times[m]
    ensures LatestTrue(marks, n).Some? && i <= LatestTrue(marks, n).value
    ensures times[i] <= times[LatestTrue(marks, n).value]
    decreases n
  {
    if i == n - 1 {
    } else {
      LatestTrueIsLatest(marks, times, i, n - 1);
    }
  }

  function TimesOf(trace: seq<Reported>): seq<int> {
    seq(|trace|, i requires 0 <= i < |trace| => trace[i].now)
  }

  lemma LatestIsLatest(trace: seq<Reported>, i: nat, n: nat, signature: string)
    requires i < n <= |trace| && EmissionOf(trace, i, signature)
    ensures var latest := LatestEmission(trace, n, signature);
      latest.Some? && i <= latest.value && trace[i].now <= trace[latest.value].now
  {
    var marks, times := EmissionsOf(trace, signature), TimesOf(trace);
    forall m | 0 <= m < |marks| && marks[m] && LatestTrue(marks, m).Some?
      ensures times[LatestTrue(marks, m).value] <= times[m]
    {
      NextEmission(trace, m, signature);
    }
    LatestTrueIsLatest(marks, times, i, n);
  }

  lemma LatestIsEmission(trace: seq<Reported>, n: nat, signature: string)
    requires n <= |trace| && LatestEmission(trace, n, signature).Some?
    ensures EmissionOf(trace, LatestEmission(trace, n, signature).value, signature)
  {
    assert EmissionsOf(trace, signature)[LatestEmission(trace, n, signature).value];
  }

  /** The memory of a signature is its latest emission. */
  lemma MemoryIsLatestEmission(trace: seq<Reported>, n: nat, signature: string)
    requires n <= |trace|
    ensures IsLatest(trace, n, signature, LastOf(LastShown(trace[..n]), signature))
  {
    MemoryOfLatest(trace, n, signature);
    forall i | 0 <= i < n && EmissionOf(trace, i, signature)
      ensures LatestEmission(trace, n, signature).Some?
      ensures trace[i].now <= trace[LatestEmission(trace, n, signature).value].now
    {
      LatestIsLatest(trace, i, n, signature);
    }
    if LatestEmission(trace, n, signature).Some? {
      LatestIsEmission(trace, n, signature);
    }
  }

  /** Two showings of one toast are at least ten seconds apart, whatever the clock does. */
  lemma SameToastIsSpaced(trace: seq<Reported>, i: nat, j: nat)
    requires i < j < |trace| && SameToast(trace, i, j)
    requires EmittedAt(trace, i) && EmittedAt(trace, j)
    ensures trace[j].now - trace[i].now >= GLOBAL_ERROR_TOAST_DEDUPE_MS
  {
    var signature := Signature(ToastOf(trace[j].error));
    LatestIsLatest(trace, i, j, signature);
    NextEmission(trace, j, signature);
  }

  /** Nothing is suppressed without cause: the identical toast was shown before, less than ten seconds earlier. */
  lemma SuppressedWasJustShown(trace: seq<Reported>, j: nat) returns (i: nat)
    requires j < |trace| && !EmittedAt(trace, j)
    ensures i < j && SameToast(trace, i, j) && EmittedAt(trace, i)
    ensures trace[j].now - trace[i].now < GLOBAL_ERROR_TOAST_DEDUPE_MS
  {
    var signature := Signature(ToastOf(trace[j].error));
    MemoryOfLatest(trace, j, signature);
    i := LatestEmission(trace, j, signature).value;
    LatestIsEmission(trace, j, signature);
    SignatureIsInjective(trace[i].error, trace[j].error);
  }

  /** Showings of one toast, as indices into the trace. */
  ghost predicate ShowingsOf(trace: seq<Reported>, toast: Toast, at: seq<nat>, from: int, length: nat) {
    && (forall k | 0 <= k < |at| :: at[k] < |trace| && EmittedAt(trace, at[k]) && ToastOf(trace[at[k]].error) == toast)
    && (forall k | 0 <= k < |at| :: from <= trace[at[k]].now <= from + length)
    && (forall k, l | 0 <= k < l < |at| :: at[k] < at[l])
  }

  /** A window of a given length shows one toast at most length / 10000 + 1 times. */
  lemma WindowHoldsFewShowings(trace: seq<Reported>, toast: Toast, at: seq<nat>, from: int, length: nat)
    requires ShowingsOf(trace, toast, at, from, length)
    ensures |at| <= length / GLOBAL_ERROR_TOAST_DEDUPE_MS + 1
  {
    if at != [] {
      ShowingsSpread(trace, toast, at, from, length, |at|);
    }
  }

  lemma {:induction false} ShowingsSpread(trace: seq<Reported>, toast: Toast, at: seq<nat>, from: int, length: nat,
                                          n: nat)
    requires ShowingsOf(trace, toast, at, from, length) && 0 < n <= |at|
    ensures trace[at[n - 1]].now >= from + (n - 1) * GLOBAL_ERROR_TOAST_DEDUPE_MS
    decreases n
  {
    if n == 1 {
    } else {
      ShowingsSpread(trace, toast, at, from, length, n - 1);
      SameToastIsSpaced(trace, at[n - 2], at[n - 1]);
    }
  }

  /** The positions, among the first n errors, of those that show a toast. */
  function EmittingAt(trace: seq<Reported>, n: nat): seq<nat>
    requires n <= |trace|
  {
    if n == 0 then [] else EmittingAt(trace, n - 1) + (if EmittedAt(trace, n - 1) then [n - 1] else [])
  }

  /** The toasts they show. */
  function ToastsShown(trace: seq<Reported>, n: nat): seq<Toast>
    requires n <= |trace|
  {
    if n == 0 then []
    else ToastsShown(trace, n - 1) + (if EmittedAt(trace, n - 1) then [ToastOf(trace[n - 1].error)] else [])
  }

  ghost predicate Ascending(at: seq<nat>) {
    forall k, l | 0 <= k < l < |at| :: at[k] < at[l]
  }

  lemma AscendingSnoc(at: seq<nat>, i: nat)
    requires Ascending(at) && forall j | j in at :: j < i
    ensures Ascending(at + [i])
  {
    forall k | 0 <= k < |at| ensures at[k] < i {
      assert at[k] in at;
    }
  }

  lemma {:induction false} EmittingAtFacts(trace: seq<Reported>, n: nat)
    requires n <= |trace|
    ensures forall i: nat :: i in EmittingAt(trace, n) <==> i < n && EmittedAt(trace, i)
    ensures Ascending(EmittingAt(trace, n))
  {
    if n == 0 {
    } else {
      EmittingAtFacts(trace, n - 1);
      AscendingSnoc(EmittingAt(trace, n - 1), n - 1);
    }
  }

  lemma {:induction false} ToastsShownFacts(trace: seq<Reported>, n: nat)
    requires n <= |trace|
    ensures var shown, at := ToastsShown(trace, n), EmittingAt(trace, n);
      |shown| == |at| && forall k | 0 <= k < |at| :: at[k] < n && shown[k] == ToastOf(trace[at[k]].error)
  {
    if n == 0 {
    } else {
      ToastsShownFacts(trace, n - 1);
    }
  }

  method ReportEach(trace: seq<Reported>) returns (shown: seq<Toast>, at: seq<nat>)
    ensures shown == ToastsShown(trace, |trace|) && at == EmittingAt(trace, |trace|)
  {
    var throttle := new Throttle();
    at := [];
    for i := 0 to |trace|
      invariant fresh(throttle) && throttle.lastShownAt == LastShown(trace[..i])
      invariant throttle.shown == ToastsShown(trace, i) && at == EmittingAt(trace, i)
    {
      var r := trace[i];
      assert trace[..i + 1] == trace[..i] + [r];
      throttle.ToastGlobalError(r.error, r.now, trace[..i]);
      assert Reported(r.error, r.now) == r;
      at := at + (if EmittedAt(trace, i) then [i] else []);
    }
    shown := throttle.shown;
  }

  /** The toasts shown over a trace of errors: which ones, and how far apart. */
  method ReportAll(trace: seq<Reported>) returns (shown: seq<Toast>, at: seq<nat>)
    ensures |shown| == |at| && forall k | 0 <= k < |at| :: at[k] < |trace| && shown[k] == ToastOf(trace[at[k]].error)
    ensures forall i: nat :: i in at <==> i < |trace| && EmittedAt(trace, i)
    ensures Ascending(at)
    ensures forall k, l | 0 <= k < l < |at| && shown[k] == shown[l] ::
      trace[at[l]].now - trace[at[k]].now >= GLOBAL_ERROR_TOAST_DEDUPE_MS
  {
    shown, at := ReportEach(trace);
    EmittingAtFacts(trace, |trace|);
    ToastsShownFacts(trace, |trace|);
    forall k, l | 0 <= k < l < |at| && shown[k] == shown[l]
      ensures trace[at[l]].now - trace[at[k]].now >= GLOBAL_ERROR_TOAST_DEDUPE_MS
    {
      assert at[k] in at && at[l] in at;
      SameToastIsSpaced(trace, at[k], at[l]);
    }
  }
}
