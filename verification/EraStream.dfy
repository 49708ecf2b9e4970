/** The ERA download stream: asks for file after file, downloads a few at a time, yields in order. */
module EraStream {
  import opened Arith
  import opened Wrappers

  datatype Poll<T> = Pending | Ready(value: T)

  /** A future the stream runs: a file's download, or an error to be reported in its place. */
  datatype Job = Download(index: nat) | UrlError(index: nat) | ListError

  datatype Phase =
    | Initial
    | FetchFileList
    | DeleteOutsideRange
    | RecoverIndex
    | CountFiles
    | Missing(count: nat)
    | NextUrl(count: nat)

  /** What the outside answers during one poll: whether each pending request succeeds or is still
      running, and whether the download in front is done. */
  datatype Answers = Answers(
    fileList: Poll<bool>, deleted: Poll<bool>, recovered: Poll<Option<nat>>, counted: Poll<nat>, url: Poll<bool>,
    frontDone: bool)

  /** The length of the file list, the files to keep in the folder and the downloads allowed at once. */
  datatype Config = Config(files: nat, maxFiles: nat, maxConcurrentDownloads: nat)

  datatype View = View(
    phase: Phase, index: nat, last: Option<nat>, downloading: nat, downloads: seq<Job>, scheduled: seq<Job>,
    ended: bool)

  // ---- What a poll does ----

  function Rank(p: Phase): nat {
    match p
    case Initial => 5
    case FetchFileList => 4
    case DeleteOutsideRange => 3
    case RecoverIndex => 2
    case CountFiles => 1
    case _ => 0
  }

  /** Phase after phase up to the first URL, as long as the answers are there; true if one failed. */
  function Listed(c: Config, v: View, a: Answers): (View, bool)
    decreases Rank(v.phase)
  {
    match v.phase
    case Initial => Listed(c, v.(phase := FetchFileList), a)
    case FetchFileList =>
      if a.fileList == Ready(true) then Listed(c, v.(phase := DeleteOutsideRange), a) else (v, a.fileList.Ready?)
    case DeleteOutsideRange =>
      if a.deleted == Ready(true) then Listed(c, v.(phase := RecoverIndex), a) else (v, a.deleted.Ready?)
    case RecoverIndex =>
      if a.recovered.Pending? then (v, false) else Listed(c, v.(phase := CountFiles, last := a.recovered.value), a)
    case CountFiles =>
      if a.counted.Pending? then (v, false) else (v.(phase := Missing(MissingFiles(c, v, a.counted.value))), false)
    case _ => (v, false)
  }

  /** Enough to keep the folder full, and to catch up with a file found there. */
  function MissingFiles(c: Config, v: View, counted: nat): nat {
    Max(Minus(c.maxFiles, counted + v.downloading), Minus(v.last.GetOr(0), v.index))
  }

  /** The answer to the URL asked for: a file of the list, an error, or the end of the list. */
  function Answered(c: Config, v: View, a: Answers): (View, Poll<Option<Job>>)
    requires v.phase.NextUrl? && v.phase.count > 0 && v.index > 0
  {
    if a.url.Pending? then (v, Pending)
    else
      (v.(phase := Missing(v.phase.count - 1)),
       Ready(if !a.url.value then Some(UrlError(v.index - 1))
             else if v.index - 1 < c.files then Some(Download(v.index - 1)) else None))
  }

  function Started(c: Config, v: View, a: Answers): (View, Poll<Option<Job>>)
    requires Asking(v)
  {
    var (w, failed) := Listed(c, v, a);
    if failed then (w, Ready(Some(ListError)))
    else match w.phase
      case Missing(n) =>
        if n == 0 then (w.(phase := CountFiles), Pending)
        else Answered(c, w.(phase := NextUrl(n), index := w.index + 1, downloading := w.downloading + 1), a)
      case NextUrl(n) => ListedKeepsUrl(c, v, a); Answered(c, w, a)
      case _ => (w, Pending)
  }

  /** Files being downloaded and files still to be asked for; while a URL is awaited its file counts as the former. */
  function Booked(v: View): nat
    requires Asking(v)
  {
    match v.phase
    case Missing(n) => v.downloading + n
    case NextUrl(n) => v.downloading + n - 1
    case _ => v.downloading
  }

  /** Once the folder has been counted, the files booked fill it up to the limit and no further, unless more
      are needed to catch up with the last file found there. Asking for them books nothing new. */
  lemma {:induction false} BookingFillsFolder(c: Config, v: View, a: Answers)
    requires Asking(v) && Rank(v.phase) <= 1
    ensures var w := Started(c, v, a).0;
            && Asking(w)
            && (v.phase != CountFiles || a.counted.Pending? ==> Booked(w) == Booked(v))
            && (v.phase == CountFiles && a.counted.Ready? ==>
                  && v.downloading <= Booked(w) && a.counted.value + Booked(w) >= c.maxFiles
                  && (v.last.Some? ==> v.index + Booked(w) - v.downloading >= v.last.value)
                  && (Booked(w) > v.downloading ==>
                        || a.counted.value + Booked(w) == c.maxFiles
                        || (v.last.Some? && v.index + Booked(w) - v.downloading == v.last.value)))
  {
    ListedKeepsUrl(c, v, a);
  }

  /** A job produced joins the schedule; no job means that the list has run out. */
  function Scheduled(v: View, started: Poll<Option<Job>>): View {
    match started
    case Pending => v
    case Ready(None) => v.(ended := true)
    case Ready(Some(job)) => v.(scheduled := v.scheduled + [job])
  }

  /** How many scheduled jobs find a free place. */
  function Moved(c: Config, v: View): (n: nat)
    ensures n <= |v.scheduled|
  {
    Min(Minus(c.maxConcurrentDownloads, |v.downloads|), |v.scheduled|)
  }

  function InFlight(c: Config, v: View): seq<Job> { v.downloads + v.scheduled[..Moved(c, v)] }

  /** The front job when it is done; nothing when none is in flight and none will come. */
  function Reported(c: Config, v: View, a: Answers): Poll<Option<Job>> {
    if InFlight(c, v) == [] then (if v.ended then Ready(None) else Pending)
    else if a.frontDone then Ready(Some(InFlight(c, v)[0])) else Pending
  }

  function Downloaded(c: Config, v: View, a: Answers): View {
    v.(downloads := if InFlight(c, v) != [] && a.frontDone then InFlight(c, v)[1..] else InFlight(c, v),
       scheduled := v.scheduled[Moved(c, v)..])
  }

  function Polled(c: Config, v: View, a: Answers): (View, Poll<Option<Job>>)
    requires Asking(v)
  {
    var (started, job) := Started(c, v, a);
    var queued := Scheduled(started, job);
    var w, r := Downloaded(c, queued, a), Reported(c, queued, a);
    (if r.Ready? then w.(downloading := Minus(w.downloading, 1)) else w, r)
  }

  /** A URL is awaited only while one is missing, and the list can run out only after it was fetched. */
  predicate Asking(v: View) {
    && (v.phase.NextUrl? ==> v.phase.count > 0 && v.index > 0)
    && (v.phase.Initial? || v.phase.FetchFileList? || v.phase.DeleteOutsideRange? ==> !v.ended)
  }

  /** The next index to be answered: one is under way while a URL is awaited. */
  function Asked(v: View): nat
    requires Asking(v)
  {
    if v.phase.NextUrl? then v.index - 1 else v.index
  }

  lemma {:induction false} ListedKeepsUrl(c: Config, v: View, a: Answers)
    ensures var w := Listed(c, v, a).0;
            && w == v.(phase := w.phase, last := w.last)
            && (w.phase.NextUrl? <==> v.phase.NextUrl?) && (v.phase.NextUrl? ==> w == v)
    decreases Rank(v.phase)
  {
    match v.phase
    case Initial => ListedKeepsUrl(c, v.(phase := FetchFileList), a);
    case FetchFileList => ListedKeepsUrl(c, v.(phase := DeleteOutsideRange), a);
    case DeleteOutsideRange => ListedKeepsUrl(c, v.(phase := RecoverIndex), a);
    case RecoverIndex =>
      if a.recovered.Ready? { ListedKeepsUrl(c, v.(phase := CountFiles, last := a.recovered.value), a); }
    case _ =>
  }

  // ---- The order of indices ----

  /** The file indices among `jobs`. */
  function Indices(jobs: seq<Job>): seq<nat> {
    if jobs == [] then []
    else
      var rest, last := Indices(jobs[..|jobs| - 1]), jobs[|jobs| - 1];
      if last.ListError? then rest else rest + [last.index]
  }

  lemma {:induction false} IndicesAppend(jobs: seq<Job>, t: Job)
    ensures Indices(jobs + [t]) == if t.ListError? then Indices(jobs) else Indices(jobs) + [t.index]
  {
    assert (jobs + [t])[..|jobs|] == jobs;
  }

  predicate Consecutive(ns: seq<nat>, start: nat) {
    forall k :: 0 <= k < |ns| ==> ns[k] == start + k
  }

  /** `listed` is what was handed to the download queue before the list ran out: every index from
      `start` on, once, in order. What comes after it can only report an error past the list. */
  ghost predicate InOrder(start: nat, files: nat, listed: seq<Job>, handed: seq<Job>, asked: nat, ended: bool) {
    && listed <= handed && Consecutive(Indices(listed), start)
    && (forall t :: t in handed && t.Download? ==> t.index < files)
    && (!ended ==> listed == handed && asked == start + |Indices(listed)|)
    && (ended ==> asked > files && start + |Indices(listed)| >= files)
    && (forall k :: |listed| <= k < |handed| ==> handed[k].UrlError? && handed[k].index >= files)
  }

  lemma {:induction false} HandOver(
    start: nat, files: nat, listed: seq<Job>, handed: seq<Job>, asked: nat, ended: bool, t: Job)
    requires InOrder(start, files, listed, handed, asked, ended)
    requires !t.ListError? ==> t.index == asked && (t.Download? ==> asked < files)
    requires t.ListError? ==> !ended
    ensures InOrder(start, files, if ended then listed else handed + [t], handed + [t],
                    if t.ListError? then asked else asked + 1, ended)
  {
    IndicesAppend(listed, t);
  }

  /** `started` is an error of a failed listing, or the answer for index `asked`. */
  predicate AnswersFor(started: Poll<Option<Job>>, asked: nat, files: nat, ended: bool) {
    match started
    case Pending => true
    case Ready(None) => asked >= files
    case Ready(Some(ListError)) => !ended
    case Ready(Some(Download(i))) => i == asked < files
    case Ready(Some(UrlError(i))) => i == asked
  }

  function AskedAfter(started: Poll<Option<Job>>, asked: nat): nat {
    if started == Pending || started == Ready(Some(ListError)) then asked else asked + 1
  }

  /** The jobs among the answers given so far. */
  function Jobs(history: seq<Option<Job>>): seq<Job> {
    if history == [] then []
    else
      var jobs, last := Jobs(history[..|history| - 1]), history[|history| - 1];
      if last == None then jobs else jobs + [last.value]
  }

  predicate RanOut(history: seq<Option<Job>>) {
    history != [] && (history[|history| - 1] == None || RanOut(history[..|history| - 1]))
  }

  function NextIndex(start: nat, history: seq<Option<Job>>): nat {
    if history == [] then start
    else AskedAfter(Ready(history[|history| - 1]), NextIndex(start, history[..|history| - 1]))
  }

  /** Each answer was an error of a failed listing, or the one for the next index. */
  predicate Follows(start: nat, files: nat, history: seq<Option<Job>>) {
    history == [] || (
      var before := history[..|history| - 1];
      && Follows(start, files, before)
      && AnswersFor(Ready(history[|history| - 1]), NextIndex(start, before), files, RanOut(before)))
  }

  /** What was handed over, the next index and the end of the list are as the answers tell. */
  ghost predicate Tells(
    start: nat, files: nat, history: seq<Option<Job>>, handed: seq<Job>, asked: nat, ended: bool)
  {
    && Follows(start, files, history) && handed == Jobs(history)
    && asked == NextIndex(start, history) && ended == RanOut(history)
  }

  lemma {:induction false} TellsMore(
    start: nat, files: nat, history: seq<Option<Job>>, handed: seq<Job>, asked: nat, ended: bool, job: Option<Job>)
    requires Tells(start, files, history, handed, asked, ended) && AnswersFor(Ready(job), asked, files, ended)
    ensures Tells(start, files, history + [job], if job == None then handed else handed + [job.value],
                  AskedAfter(Ready(job), asked), ended || job == None)
  {
    assert (history + [job])[..|history|] == history;
  }

  /** The jobs handed over before the list ran out. */
  function Before(history: seq<Option<Job>>): seq<Job> {
    if history == [] then []
    else if RanOut(history[..|history| - 1]) then Before(history[..|history| - 1])
    else Jobs(history)
  }

  /** Answers that follow one another are in order. */
  lemma {:induction false} FollowsInOrder(start: nat, files: nat, history: seq<Option<Job>>)
    requires Follows(start, files, history)
    ensures InOrder(start, files, Before(history), Jobs(history), NextIndex(start, history), RanOut(history))
  {
    if history != [] {
      var before, last := history[..|history| - 1], history[|history| - 1];
      FollowsInOrder(start, files, before);
      if last.Some? {
        HandOver(start, files, Before(before), Jobs(before), NextIndex(start, before), RanOut(before), last.value);
      }
    }
  }

  /** When the list has run out, every file from `start` on has been handed over. */
  lemma {:induction false} EveryFileListed(
    start: nat, files: nat, listed: seq<Job>, handed: seq<Job>, asked: nat, i: nat)
    requires InOrder(start, files, listed, handed, asked, true) && start <= i < files
    ensures Indices(listed)[i - start] == i
    ensures Download(i) in handed || UrlError(i) in handed
  {
    IndexHasJob(listed, i - start);
  }

  lemma {:induction false} IndexHasJob(jobs: seq<Job>, k: nat)
    requires k < |Indices(jobs)|
    ensures Download(Indices(jobs)[k]) in jobs || UrlError(Indices(jobs)[k]) in jobs
  {
    var n := |jobs| - 1;
    assert jobs == jobs[..n] + [jobs[n]];
    if k < |Indices(jobs[..n])| { IndexHasJob(jobs[..n], k); }
  }

  /** What the starting side gives is an error of a failed listing, or the answer for exactly the next
      index. */
  lemma {:induction false} StartedAnswersNext(c: Config, v: View, a: Answers)
    requires Asking(v)
    ensures var (w, r) := Started(c, v, a);
            && Asking(w) && Asking(Scheduled(w, r))
            && w == v.(phase := w.phase, index := w.index, last := w.last, downloading := w.downloading)
            && (r == Pending || r == Ready(Some(ListError)) ==> Asked(w) == Asked(v))
            && (r == Ready(Some(ListError)) ==> !v.ended)
            && (r.Ready? && r != Ready(Some(ListError)) ==>
                  && Asked(w) == Asked(v) + 1 && w.phase.Missing?
                  && (r.value == None ==> Asked(v) >= c.files)
                  && (r.value.Some? ==> r.value.value.index == Asked(v))
                  && (r.value.Some? && r.value.value.Download? ==> Asked(v) < c.files))
  {
    ListedKeepsUrl(c, v, a);
    ListedFails(c, v, a);
  }

  lemma {:induction false} StartedIsAnswer(c: Config, v: View, a: Answers)
    requires Asking(v)
    ensures var (w, job) := Started(c, v, a);
            && AnswersFor(job, Asked(v), c.files, v.ended)
            && Asking(Scheduled(w, job)) && Asked(Scheduled(w, job)) == AskedAfter(job, Asked(v))
            && w == v.(phase := w.phase, index := w.index, last := w.last, downloading := w.downloading)
  {
    StartedAnswersNext(c, v, a);
  }

  lemma {:induction false} ListedFails(c: Config, v: View, a: Answers)
    requires Asking(v)
    ensures Asking(Listed(c, v, a).0) && (Listed(c, v, a).1 ==> !v.ended && !Listed(c, v, a).0.phase.NextUrl?)
    decreases Rank(v.phase)
  {
    match v.phase
    case Initial => ListedFails(c, v.(phase := FetchFileList), a);
    case FetchFileList => ListedFails(c, v.(phase := DeleteOutsideRange), a);
    case DeleteOutsideRange => ListedFails(c, v.(phase := RecoverIndex), a);
    case RecoverIndex =>
      if a.recovered.Ready? { ListedFails(c, v.(phase := CountFiles, last := a.recovered.value), a); }
    case _ =>
  }

  // ---- Progress ----

  /** Every request is answered, the front download is done, and the folder is not full. */
  predicate Prompt(c: Config, a: Answers) {
    && a.fileList == Ready(true) && a.deleted == Ready(true) && a.recovered.Ready?
    && a.counted.Ready? && a.counted.value < c.maxFiles
    && a.url == Ready(true) && a.frontDone
  }

  function Outstanding(v: View): nat { |v.downloads| + |v.scheduled| }

  /** Until the list has run out, no more downloads are counted than there are jobs outstanding. */
  predicate Counted(v: View) {
    !v.ended ==> v.downloading <= Outstanding(v) + if v.phase.NextUrl? then 1 else 0
  }

  /** Polls that can still be needed: two for each file to come, one for each job outstanding, and one
      to count the files again. */
  function Work(c: Config, v: View): nat
    requires Asking(v)
  {
    Outstanding(v)
    + if v.ended then 0 else 2 * Minus(c.files + 1, Asked(v)) + if v.phase == Missing(0) then 1 else 0
  }

  lemma {:induction false} DownloadedCounts(c: Config, v: View, a: Answers)
    ensures Outstanding(Downloaded(c, v, a)) ==
      Outstanding(v) - if InFlight(c, v) != [] && a.frontDone then 1 else 0
    ensures c.maxConcurrentDownloads > 0 ==> (InFlight(c, v) == [] <==> Outstanding(v) == 0)
    ensures |v.downloads| <= c.maxConcurrentDownloads ==>
      |InFlight(c, v)| <= c.maxConcurrentDownloads && |Downloaded(c, v, a).downloads| <= c.maxConcurrentDownloads
  {
  }

  /** Any poll keeps the count within the jobs outstanding. */
  lemma {:induction false} PolledCounts(c: Config, v: View, a: Answers)
    requires Asking(v) && Counted(v)
    ensures Asking(Polled(c, v, a).0) && Counted(Polled(c, v, a).0)
  {
    ListedKeepsUrl(c, v, a);
    StartedAnswersNext(c, v, a);
    var (w, job) := Started(c, v, a);
    DownloadedCounts(c, Scheduled(w, job), a);
  }

  /** The end is reported only when the list has run out and nothing is in flight. */
  lemma {:induction false} PolledEnd(c: Config, v: View, a: Answers)
    requires Asking(v) && Polled(c, v, a).1 == Ready(None)
    ensures var w := Polled(c, v, a).0;
            w.ended && w.downloads == [] && (c.maxConcurrentDownloads > 0 ==> w.scheduled == [])
  {
    var (w, job) := Started(c, v, a);
    DownloadedCounts(c, Scheduled(w, job), a);
  }

  lemma {:induction false} PromptListed(c: Config, v: View, a: Answers)
    requires Prompt(c, a)
    ensures var (w, failed) := Listed(c, v, a);
            && !failed && (w.phase.Missing? || w.phase.NextUrl?)
            && (v.phase.Missing? || v.phase.NextUrl? ==> w == v)
            && (w.phase == Missing(0) && v.phase != Missing(0) ==> v.downloading > 0)
    decreases Rank(v.phase)
  {
    match v.phase
    case Initial => PromptListed(c, v.(phase := FetchFileList), a);
    case FetchFileList => PromptListed(c, v.(phase := DeleteOutsideRange), a);
    case DeleteOutsideRange => PromptListed(c, v.(phase := RecoverIndex), a);
    case RecoverIndex => PromptListed(c, v.(phase := CountFiles, last := a.recovered.value), a);
    case _ =>
  }

  /** The starting side alone: it never adds work, and does some unless a job is outstanding. */
  lemma {:induction false} PromptStart(c: Config, v: View, a: Answers)
    requires Asking(v) && Counted(v) && Prompt(c, a) && (v.ended ==> Asked(v) > c.files)
    ensures var (w, job) := Started(c, v, a);
            var queued := Scheduled(w, job);
            && Asking(queued) && Work(c, queued) <= Work(c, v)
            && (Outstanding(queued) == 0 ==> queued.ended || Work(c, queued) < Work(c, v))
            && (job.Ready? && job.value.Some? ==> job.value.value == Download(Asked(v)) && !v.ended)
  {
    ListedKeepsUrl(c, v, a);
    PromptListed(c, v, a);
    StartedAnswersNext(c, v, a);
  }

  lemma {:induction false} DownloadingWorks(c: Config, v: View, a: Answers)
    requires Asking(v) && a.frontDone && c.maxConcurrentDownloads > 0
    ensures var w := Downloaded(c, v, a);
            && Asking(w) && Work(c, w) == Work(c, v) - (if Outstanding(v) > 0 then 1 else 0)
            && (Outstanding(v) == 0 && v.ended ==> Reported(c, v, a) == Ready(None))
  {
    DownloadedCounts(c, v, a);
    WorkCountsOutstanding(c, v, Downloaded(c, v, a).downloads, Downloaded(c, v, a).scheduled);
  }

  lemma {:induction false} WorkCountsOutstanding(c: Config, v: View, downloads: seq<Job>, scheduled: seq<Job>)
    requires Asking(v)
    ensures var w := v.(downloads := downloads, scheduled := scheduled);
            Asking(w) && Work(c, w) - Outstanding(w) == Work(c, v) - Outstanding(v)
  {
  }

  /** With prompt answers each poll ends the stream or leaves less to do, and asks only for downloads. */
  lemma {:induction false} PromptPollWorks(c: Config, v: View, a: Answers)
    requires Asking(v) && Counted(v) && Prompt(c, a) && c.maxConcurrentDownloads > 0
    requires v.ended ==> Asked(v) > c.files
    ensures Asking(Polled(c, v, a).0)
    ensures Polled(c, v, a).1 == Ready(None) || Work(c, Polled(c, v, a).0) < Work(c, v)
  {
    PromptStart(c, v, a);
    var (w, job) := Started(c, v, a);
    var queued := Scheduled(w, job);
    DownloadingWorks(c, queued, a);
    WorkIgnoresCount(c, Downloaded(c, queued, a), Minus(Downloaded(c, queued, a).downloading, 1));
  }

  lemma {:induction false} WorkIgnoresCount(c: Config, v: View, n: nat)
    requires Asking(v)
    ensures Asking(v.(downloading := n)) && Work(c, v.(downloading := n)) == Work(c, v)
  {
  }

  // ---- The stream ----

  class EraStream {
    const files: nat  // entries in the file list
    const maxFiles: nat
    const maxConcurrentDownloads: nat
    var downloads: seq<Job>
    var scheduled: seq<Job>
    var ended: bool
    var phase: Phase
    var index: nat
    var last: Option<nat>
    var downloading: nat
    ghost const start: nat
    ghost var history: seq<Option<Job>>
    ghost var handed: seq<Job>
    ghost var yielded: seq<Job>

    function Limits(): Config { Config(files, maxFiles, maxConcurrentDownloads) }

    function Seen(): View
      reads this
    {
      View(phase, index, last, downloading, downloads, scheduled, ended)
    }

    /** What was handed over has been yielded, is being downloaded or is scheduled, in this order. */
    ghost predicate Queued()
      reads this
    {
      && |downloads| <= maxConcurrentDownloads && (maxConcurrentDownloads == 0 ==> yielded == [])
      && handed == yielded + downloads + scheduled
    }

    ghost predicate Valid()
      reads this
    {
      && Queued() && Asking(Seen()) && Counted(Seen())
      && Tells(start, files, history, handed, Asked(Seen()), ended)
    }

    constructor (files: nat, maxFiles: nat, maxConcurrentDownloads: nat, startFrom: nat)
      ensures Valid() && Limits() == Config(files, maxFiles, maxConcurrentDownloads)
      ensures start == startFrom && Seen() == Fresh(startFrom) && yielded == handed == []
    {
      this.files, this.maxFiles, this.maxConcurrentDownloads := files, maxFiles, maxConcurrentDownloads;
      downloads, scheduled, ended := [], [], false;
      phase, index, last, downloading := Initial, startFrom, None, 0;
      start, history, handed, yielded := startFrom, [], [], [];
    }

    /** The steps before the first URL: a failed listing or clean-up is tried again. */
    method PollListing(answers: Answers) returns (failed: bool)
      modifies this`phase, this`last
      ensures (Seen(), failed) == Listed(Limits(), old(Seen()), answers)
    {
      ghost var c, v := Limits(), Seen();
      if phase == Initial { phase := FetchFileList; }
      assert Listed(c, v, answers) == Listed(c, Seen(), answers);
      if phase == FetchFileList && answers.fileList.Ready? {
        if !answers.fileList.value { return true; }
        phase := DeleteOutsideRange;
      }
      assert Listed(c, v, answers) == Listed(c, Seen(), answers);
      if phase == DeleteOutsideRange && answers.deleted.Ready? {
        if !answers.deleted.value { return true; }
        phase := RecoverIndex;
      }
      assert Listed(c, v, answers) == Listed(c, Seen(), answers);
      if phase == RecoverIndex && answers.recovered.Ready? {
        last := answers.recovered.value;
        phase := CountFiles;
      }
      assert Listed(c, v, answers) == Listed(c, Seen(), answers);
      if phase == CountFiles && answers.counted.Ready? {
        phase := Missing(Max(Minus(maxFiles, answers.counted.value + downloading), Minus(last.GetOr(0), index)));
      }
      failed := false;
    }

    /** Moves the starting state machine on as far as the answers allow. */
    method PollStarting(answers: Answers) returns (r: Poll<Option<Job>>)
      requires Asking(Seen())
      modifies this`phase, this`index, this`last, this`downloading
      ensures (Seen(), r) == Started(Limits(), old(Seen()), answers)
    {
      ListedKeepsUrl(Limits(), Seen(), answers);
      var failed := PollListing(answers);
      if failed { return Ready(Some(ListError)); }
      if phase.Missing? {
        if phase.count > 0 {
          index := index + 1;
          downloading := downloading + 1;
          phase := NextUrl(phase.count);
        } else {
          phase := CountFiles;
        }
      }
      if phase.NextUrl? && answers.url.Ready? {
        phase := Missing(phase.count - 1);
        return Ready(if !answers.url.value then Some(UrlError(index - 1))
                     else if index - 1 < files then Some(Download(index - 1)) else None);
      }
      r := Pending;
    }

    /** Fills the free download places from the schedule. */
    method Fill()
      requires Queued()
      modifies this`downloads, this`scheduled
      ensures Queued() && downloads == InFlight(Limits(), old(Seen()))
      ensures scheduled == old(scheduled)[Moved(Limits(), old(Seen()))..]
    {
      for i := 0 to maxConcurrentDownloads - |downloads|
        invariant var k := Min(i, |old(scheduled)|);
                  downloads == old(downloads) + old(scheduled)[..k] && scheduled == old(scheduled)[k..]
      {
        if scheduled != [] {
          downloads, scheduled := downloads + [scheduled[0]], scheduled[1..];
        }
      }
      assert handed == yielded + downloads + scheduled;
    }

    /** Fills the free places, then reports the front download. */
    method PollDownloads(answers: Answers) returns (r: Poll<Option<Job>>)
      requires Queued()
      modifies this`downloads, this`scheduled, this`yielded
      ensures Queued()
      ensures Seen() == Downloaded(Limits(), old(Seen()), answers) && r == Reported(Limits(), old(Seen()), answers)
      ensures yielded == old(yielded) + if r.Ready? && r.value.Some? then [r.value.value] else []
    {
      Fill();
      if downloads == [] {
        return if ended then Ready(None) else Pending;
      }
      if !answers.frontDone { return Pending; }
      r := Ready(Some(downloads[0]));
      assert (yielded + [downloads[0]]) + downloads[1..] + scheduled == yielded + downloads + scheduled;
      downloads, yielded := downloads[1..], yielded + [downloads[0]];
    }

    /** Queues what the starting side produced, or notes that the list has run out. */
    method Schedule(started: Poll<Option<Job>>, ghost asked: nat)
      requires Tells(start, files, history, handed, asked, ended) && Queued()
      requires AnswersFor(started, asked, files, ended)
      modifies this`scheduled, this`ended, this`history, this`handed
      ensures Queued() && Seen() == Scheduled(old(Seen()), started)
      ensures handed == old(handed) + if started.Ready? && started.value.Some? then [started.value.value] else []
      ensures Tells(start, files, history, handed, AskedAfter(started, asked), ended)
    {
      if started.Ready? {
        TellsMore(start, files, history, handed, asked, ended, started.value);
        history := history + [started.value];
        match started.value {
          case Some(job) =>
            assert (yielded + downloads + scheduled) + [job] == yielded + downloads + (scheduled + [job]);
            scheduled, handed := scheduled + [job], handed + [job];
          case None => ended := true;
        }
      }
    }

    method StartNext(answers: Answers)
      requires Valid()
      modifies this`phase, this`index, this`last, this`downloading, this`scheduled, this`ended,
               this`history, this`handed
      ensures Queued() && Asking(Seen()) && Tells(start, files, history, handed, Asked(Seen()), ended)
      ensures var (w, job) := Started(Limits(), old(Seen()), answers);
              && Seen() == Scheduled(w, job)
              && handed == old(handed) + if job.Ready? && job.value.Some? then [job.value.value] else []
    {
      StartedIsAnswer(Limits(), Seen(), answers);
      var started := PollStarting(answers);
      Schedule(started, Asked(old(Seen())));
    }

    /** One poll: jobs come out in the order handed over, and the stream ends only when the list has
        run out and nothing is in flight; nothing is then left unless no download is allowed at all. */
    method PollNext(answers: Answers) returns (r: Poll<Option<Job>>)
      requires Valid()
      modifies this
      ensures Valid() && (Seen(), r) == Polled(Limits(), old(Seen()), answers)
      ensures var job := Started(Limits(), old(Seen()), answers).1;
              handed == old(handed) + if job.Ready? && job.value.Some? then [job.value.value] else []
      ensures yielded == old(yielded) + if r.Ready? && r.value.Some? then [r.value.value] else []
      ensures r == Ready(None) ==> ended && downloads == []
      ensures r == Ready(None) ==> forall i :: start <= i < files ==> Download(i) in handed || UrlError(i) in handed
      ensures r == Ready(None) ==> (yielded == handed <==> maxConcurrentDownloads > 0 || handed == [])
    {
      if Polled(Limits(), Seen(), answers).1 == Ready(None) { PolledEnd(Limits(), Seen(), answers); }
      r := Advance(answers);
      if r == Ready(None) { AllListed(start, files, history); }
    }

    method Advance(answers: Answers) returns (r: Poll<Option<Job>>)
      requires Valid()
      modifies this
      ensures Valid() && (Seen(), r) == Polled(Limits(), old(Seen()), answers)
      ensures var job := Started(Limits(), old(Seen()), answers).1;
              handed == old(handed) + if job.Ready? && job.value.Some? then [job.value.value] else []
      ensures yielded == old(yielded) + if r.Ready? && r.value.Some? then [r.value.value] else []
    {
      PolledCounts(Limits(), Seen(), answers);
      StartNext(answers);
      r := PollDownloads(answers);
      if r.Ready? { downloading := Minus(downloading, 1); }
    }
  }

  lemma {:induction false} AllListed(start: nat, files: nat, history: seq<Option<Job>>)
    requires Follows(start, files, history) && RanOut(history)
    ensures forall i :: start <= i < files ==> Download(i) in Jobs(history) || UrlError(i) in Jobs(history)
  {
    FollowsInOrder(start, files, history);
    forall i | start <= i < files ensures Download(i) in Jobs(history) || UrlError(i) in Jobs(history) {
      EveryFileListed(start, files, Before(history), Jobs(history), NextIndex(start, history), i);
    }
  }

  // ---- Whole downloads ----

  method PollPromptly(s: EraStream, answers: Answers) returns (r: Poll<Option<Job>>)
    requires s.Valid() && s.maxConcurrentDownloads > 0 && Prompt(s.Limits(), answers)
    modifies s
    ensures s.Valid() && (old(AllDownloads(s.handed)) ==> AllDownloads(s.handed))
    ensures s.yielded == old(s.yielded) + if r.Ready? && r.value.Some? then [r.value.value] else []
    ensures r == Ready(None) || Work(s.Limits(), s.Seen()) < old(Work(s.Limits(), s.Seen()))
    ensures r == Ready(None) ==> s.ended && s.yielded == s.handed
    ensures r == Ready(None) ==>
      forall i :: s.start <= i < s.files ==> Download(i) in s.handed || UrlError(i) in s.handed
  {
    FollowsInOrder(s.start, s.files, s.history);
    PromptStart(s.Limits(), s.Seen(), answers);
    PromptPollWorks(s.Limits(), s.Seen(), answers);
    r := s.PollNext(answers);
  }

  /** Whatever happened before, from now on with prompt answers the stream ends within the polls that
      its state calls for, with everything handed over yielded. */
  method PollToEnd(s: EraStream, answers: seq<Answers>) returns (out: seq<Job>, polls: nat)
    requires s.Valid() && s.maxConcurrentDownloads > 0
    requires forall k :: 0 <= k < |answers| ==> Prompt(s.Limits(), answers[k])
    requires |answers| > Work(s.Limits(), s.Seen())
    modifies s
    ensures s.Valid() && s.ended && s.yielded == s.handed == old(s.yielded) + out
    ensures polls <= old(Work(s.Limits(), s.Seen())) + 1
    ensures forall i :: s.start <= i < s.files ==> Download(i) in s.yielded || UrlError(i) in s.yielded
    ensures old(AllDownloads(s.handed)) ==> AllDownloads(s.handed)
  {
    out, polls := [], 0;
    while true
      invariant s.Valid() && s.yielded == old(s.yielded) + out
      invariant polls + Work(s.Limits(), s.Seen()) <= old(Work(s.Limits(), s.Seen()))
      invariant old(AllDownloads(s.handed)) ==> AllDownloads(s.handed)
      decreases Work(s.Limits(), s.Seen())
    {
      var r := PollPromptly(s, answers[polls]);
      polls := polls + 1;
      if r == Ready(None) { return; }
      if r.Ready? { out := out + [r.value.value]; }
    }
  }

  predicate AllDownloads(jobs: seq<Job>) {
    forall k :: 0 <= k < |jobs| ==> jobs[k].Download?
  }

  lemma {:induction false} DownloadIndices(jobs: seq<Job>)
    requires AllDownloads(jobs)
    ensures |Indices(jobs)| == |jobs| && forall k :: 0 <= k < |jobs| ==> jobs[k] == Download(Indices(jobs)[k])
  {
    if jobs != [] { DownloadIndices(jobs[..|jobs| - 1]); }
  }

  lemma {:induction false} OnlyDownloads(start: nat, files: nat, listed: seq<Job>, handed: seq<Job>, asked: nat)
    requires InOrder(start, files, listed, handed, asked, true) && AllDownloads(handed)
    ensures |handed| == Minus(files, start) && forall k :: 0 <= k < |handed| ==> handed[k] == Download(start + k)
  {
    if handed != [] { assert handed[|handed| - 1] in handed; }
    assert listed == handed;
    DownloadIndices(handed);
  }

  /** A fresh stream with prompt answers yields exactly the files from the start to the end of the list,
      in order, within two polls for each and three more. */
  method DownloadAll(c: Config, start: nat, answers: seq<Answers>) returns (out: seq<Job>, polls: nat)
    requires c.maxConcurrentDownloads > 0
    requires forall k :: 0 <= k < |answers| ==> Prompt(c, answers[k])
    requires |answers| > 2 * Minus(c.files + 1, start)
    ensures |out| == Minus(c.files, start) && forall k :: 0 <= k < |out| ==> out[k] == Download(start + k)
    ensures polls <= 2 * Minus(c.files + 1, start) + 1
  {
    var s := new EraStream(c.files, c.maxFiles, c.maxConcurrentDownloads, start);
    assert s.Limits() == c && Work(c, s.Seen()) == 2 * Minus(c.files + 1, start);
    out, polls := PollToEnd(s, answers);
    FollowsInOrder(start, c.files, s.history);
    OnlyDownloads(start, c.files, Before(s.history), s.handed, Asked(s.Seen()));
    assert out == s.handed;
  }

  function Fresh(start: nat): View { View(Initial, start, None, 0, [], [], false) }

  /** One file and no download allowed: the second poll ends the stream with the file still scheduled. */
  lemma {:induction false} NoDownloadsAllowed()
    ensures var c := Config(1, 5, 0);
            var a := Answers(Ready(true), Ready(true), Ready(None), Ready(0), Ready(true), true);
            var (v, r) := Polled(c, Fresh(0), a);
            && Prompt(c, a) && Asking(v) && r == Pending && v.scheduled == [Download(0)]
            && Polled(c, v, a).1 == Ready(None) && Polled(c, v, a).0.scheduled == [Download(0)]
  {
    var c, a := Config(1, 5, 0), Answers(Ready(true), Ready(true), Ready(None), Ready(0), Ready(true), true);
    var v := Fresh(0);
    assert Listed(c, v, a) == Listed(c, v.(phase := DeleteOutsideRange), a);
    assert Listed(c, v.(phase := DeleteOutsideRange), a) == Listed(c, v.(phase := CountFiles), a);
    var w := View(Missing(4), 1, None, 1, [], [Download(0)], false);
    assert Started(c, v, a) == (w.(scheduled := []), Ready(Some(Download(0))));
    NothingDownloaded(c, w, a);
    assert Started(c, w, a) == (w.(phase := Missing(3), index := 2, downloading := 2), Ready(None));
    NothingDownloaded(c, w.(phase := Missing(3), index := 2, downloading := 2, ended := true), a);
  }

  lemma {:induction false} NothingDownloaded(c: Config, v: View, a: Answers)
    requires c.maxConcurrentDownloads == 0 && v.downloads == []
    ensures Downloaded(c, v, a) == v && Reported(c, v, a) == if v.ended then Ready(None) else Pending
  {
    assert v.scheduled[..0] == [] && v.scheduled[0..] == v.scheduled;
  }
}
