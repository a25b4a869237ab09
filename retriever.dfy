/** The retriever object of `pacs_nm_retriever.py`: the image counter and
    the files under the output directory that its operations update, the
    storage handler that a C-MOVE drives, retrieval of one series with
    getscu (C-GET) or C-MOVE, retrieval of one study series by series, and
    the top-level loop over the selected studies with its image limit.

    The archive, the getscu process and the file system's rename failures
    are the environment `Env`: what they answer is a parameter of each
    operation, so the model says what the retriever does with every answer
    they can give. */
module NmRetriever {
  import opened Wrappers
  import opened Text
  import opened Dicom
  import opened DicomDate
  import opened NmQuery

  /** One object the archive sends during a C-MOVE, and whether
      `ds.save_as` succeeds on it. */
  datatype Delivery = Delivery(ds: Dataset, saved: bool)

  /** How a C-MOVE goes: the storage listener cannot be started, the
      association to the archive fails, or the move runs, delivering some
      objects to the listener, and the exchange either completes or raises. */
  datatype MoveRun = ServerFailed | NotAssociated | Moved(deliveries: seq<Delivery>, raised: bool)

  /** The answers of the outside world: the reply to each C-FIND
      identifier, the outcome of each getscu command line, the outcome of
      each C-MOVE identifier, and the paths whose rename fails. */
  datatype Env = Env(find: Dataset -> FindReply,
                     getscu: seq<string> -> ToolRun,
                     move: Dataset -> MoveRun,
                     renameFails: set<string>)

  /** `_retrieve_with_get` succeeds exactly when getscu exits with 0. */
  predicate GetOk(run: ToolRun)
  {
    run.Exited? && run.code == 0
  }

  /** The image count and the files after getscu answered `run`, starting
      from `p`, when the renames of `fails` fail. */
  function AfterGet(run: ToolRun, fails: set<string>, p: Progress): Progress
  {
    match run
    case Exited(code, stdout, written) =>
      if code == 0 then Progress(p.count + Max(CompletedCount(stdout), 0), Renamed(p.files + written, fails))
      else Progress(p.count, p.files + written)
    case TimedOut(written) => Progress(p.count, p.files + written)
    case Failed(written) => Progress(p.count, p.files + written)
    case NotFound => p
  }

  /** `_retrieve_with_move` succeeds exactly when the move completes. */
  predicate MoveOk(run: MoveRun)
  {
    run.Moved? && !run.raised
  }

  /** The paths `handle_store` writes for the deliveries that save. */
  function StoredFiles(outputDir: string, ds: seq<Delivery>): set<string>
  {
    if ds == [] then {}
    else
      var last := ds[|ds| - 1];
      StoredFiles(outputDir, ds[..|ds| - 1]) + (if last.saved then {StorePath(outputDir, last.ds)} else {})
  }

  /** The series `find_nm_series` returns for a reply (no limit). */
  function SeriesFound(reply: FindReply): seq<Dataset>
  {
    if reply.Replies? then Pending(reply.responses) else []
  }

  /** The studies `find_nm_studies` returns for a reply, or the exception it
      raises. */
  function StudiesFound(reply: FindReply, limit: Option<int>): Outcome<seq<Dataset>>
  {
    if reply.NotEstablished? || reply.raised then Return([])
    else NmSelection(Pending(reply.responses), limit)
  }

  /** The index of the first series without a SeriesInstanceUID, where
      `retrieve_study` raises; the length when every series has one. */
  function FirstMissing(series: seq<Dataset>): (n: nat)
    ensures n <= |series|
    ensures forall k :: 0 <= k < n ==> "SeriesInstanceUID" in series[k]
    ensures n < |series| ==> "SeriesInstanceUID" !in series[n]
  {
    if series == [] then 0
    else if "SeriesInstanceUID" !in series[0] then 0
    else 1 + FirstMissing(series[1..])
  }

  /** An identifier a retrieval can be made with: it names the level and
      the study. */
  predicate Retrievable(ds: Dataset)
  {
    "QueryRetrieveLevel" in ds && "StudyInstanceUID" in ds
  }

  /** Every identifier of `reqs` can be retrieved with. */
  predicate AllRetrievable(reqs: seq<Dataset>)
  {
    forall k :: 0 <= k < |reqs| ==> Retrievable(reqs[k])
  }

  lemma AllRetrievableAppend(a: seq<Dataset>, b: seq<Dataset>)
    requires AllRetrievable(a) && AllRetrievable(b)
    ensures AllRetrievable(a + b)
  {
    forall k | 0 <= k < |a + b| ensures Retrievable((a + b)[k]) {
      if k < |a| { assert (a + b)[k] == a[k]; } else { assert (a + b)[k] == b[k - |a|]; }
    }
  }

  /** The image counter and the files under the output directory. */
  datatype Progress = Progress(count: int, files: set<string>)

  /** The SERIES-level requests for the first `n` series. */
  function Requests(studyUid: string, series: seq<Dataset>, n: nat): (rs: seq<Dataset>)
    requires n <= |series| && forall k :: 0 <= k < n ==> "SeriesInstanceUID" in series[k]
    ensures |rs| == n
    ensures AllRetrievable(rs)
  {
    seq(n, k requires 0 <= k < n => RetrieveQuery(studyUid, series[k]["SeriesInstanceUID"]))
  }

  /** One more series, one more request. */
  lemma RequestsSnoc(studyUid: string, series: seq<Dataset>, i: nat)
    requires i < |series| && forall k :: 0 <= k <= i ==> "SeriesInstanceUID" in series[k]
    ensures Requests(studyUid, series, i + 1)
         == Requests(studyUid, series, i) + [RetrieveQuery(studyUid, series[i]["SeriesInstanceUID"])]
  {
  }

  /** The study UID of a selected study (every selected study has one). */
  function StudyUid(study: Dataset): string
  {
    Attr(study, "StudyInstanceUID", "")
  }

  /** `max_images and self.image_count >= max_images`. */
  predicate Reached(maxImages: Option<int>, count: int)
  {
    Truthy(maxImages) && count >= maxImages.value
  }

  /** `find_nm_studies` as a whole: the C-FIND on the given date filter or
      the default window, then the NM selection. Every returned study has a
      StudyInstanceUID. */
  method SearchStudies(limit: Option<int>, filter: Option<string>, today: Date, env: Env)
    returns (found: Outcome<seq<Dataset>>)
    requires Valid(today) && Ordinal(today) > 30
    ensures found == StudiesFound(env.find(StudyQuery(QueryDate(filter, today))), limit)
    ensures found.Return? ==> forall k :: 0 <= k < |found.value| ==> "StudyInstanceUID" in found.value[k]
  {
    var reply := env.find(StudyQuery(QueryDate(filter, today)));
    found := FindNmStudies(reply, limit);
    if reply.Replies? && !reply.raised {
      NmSelectionSound(Pending(reply.responses), limit);
    }
  }

  class Retriever {
    const outputDir: string
    const dryRun: bool
    const useCGet: bool
    const localAet: string
    const pacsAet: string
    const pacsHost: string
    const pacsPort: int

    /** `self.image_count`. */
    var imageCount: int
    /** The files under the output directory. */
    var files: set<string>
    /** Whether the storage listener of a C-MOVE is running. */
    var listening: bool
    /** Every SERIES-level retrieval requested, in order. */
    ghost var retrievals: seq<Dataset>
    /** For every study the top-level loop has processed: its UID and the
        image count after it. */
    ghost var trace: seq<(string, int)>

    constructor (outputDir: string, dryRun: bool, useCGet: bool, localAet: string,
                 pacsAet: string, pacsHost: string, pacsPort: int, existing: set<string>)
      ensures this.outputDir == outputDir && this.dryRun == dryRun && this.useCGet == useCGet
      ensures this.localAet == localAet && this.pacsAet == pacsAet
      ensures this.pacsHost == pacsHost && this.pacsPort == pacsPort
      ensures imageCount == 0 && files == existing && !listening
      ensures retrievals == [] && trace == []
    {
      this.outputDir := outputDir;
      this.dryRun := dryRun;
      this.useCGet := useCGet;
      this.localAet := localAet;
      this.pacsAet := pacsAet;
      this.pacsHost := pacsHost;
      this.pacsPort := pacsPort;
      imageCount := 0;
      files := existing;
      listening := false;
      retrievals := [];
      trace := [];
    }

    /** The files `handle_store` writes for a run of deliveries: none in a
        dry run. */
    function Written(ds: seq<Delivery>): set<string>
    {
      if dryRun then {} else StoredFiles(outputDir, ds)
    }

    /** The files after one more delivery. */
    lemma WrittenStep(start: set<string>, before: set<string>, after: set<string>, ds: seq<Delivery>, i: nat)
      requires i < |ds| && before == start + Written(ds[..i])
      requires dryRun || !ds[i].saved ==> after == before
      requires !dryRun && ds[i].saved ==> after == before + {StorePath(outputDir, ds[i].ds)}
      ensures after == start + Written(ds[..i + 1])
    {
      assert ds[..i + 1][..i] == ds[..i];
    }

    /** Whether retrieving one series succeeds, by the configured method. */
    predicate SeriesOk(env: Env, ds: Dataset)
      requires Retrievable(ds)
    {
      if useCGet then GetOk(env.getscu(GetscuArgs(localAet, pacsAet, pacsHost, pacsPort, ds, outputDir)))
      else MoveOk(env.move(ds))
    }

    /** Whether `retrieve_study` raises for a study. */
    predicate StudyThrows(env: Env, studyUid: string)
    {
      var series := SeriesFound(env.find(SeriesQuery(studyUid)));
      !dryRun && series != [] && FirstMissing(series) < |series|
    }

    /** `handle_store`: every delivered object is counted; in a dry run
        nothing is written and Success is answered; otherwise the object is
        saved under the storage path and Success or Failure answered as the
        save goes. */
    method HandleStore(ds: Dataset, saved: bool) returns (status: int)
      modifies this
      ensures imageCount == old(imageCount) + 1
      ensures dryRun ==> status == StoreSuccess && files == old(files)
      ensures !dryRun && saved ==> status == StoreSuccess && files == old(files) + {StorePath(outputDir, ds)}
      ensures !dryRun && !saved ==> status == StoreFailure && files == old(files)
      ensures listening == old(listening) && retrievals == old(retrievals) && trace == old(trace)
    {
      imageCount := imageCount + 1;
      if dryRun {
        return StoreSuccess;
      }
      if !saved {
        return StoreFailure;
      }
      files := files + {StorePath(outputDir, ds)};
      return StoreSuccess;
    }

    /** The rename pass of `_retrieve_with_get`: every file under the
        output directory without the suffix is renamed to carry it, one at a
        time; a failing rename leaves the file as it is. */
    method RenamePass(fails: set<string>)
      modifies this
      ensures files == Renamed(old(files), fails)
      ensures imageCount == old(imageCount) && listening == old(listening)
      ensures retrievals == old(retrievals) && trace == old(trace)
    {
      var fs := files;
      var todo := fs;
      while todo != {}
        invariant todo <= old(files)
        invariant fs == Renamed(old(files) - todo, fails) + todo
        modifies {}
        decreases |todo|
      {
        var f :| f in todo;
        RenamedStep(old(files), todo, f, fails);
        if !EndsWith(f, Suffix) && f !in fails {
          fs := fs - {f} + {f + Suffix};
        }
        todo := todo - {f};
      }
      assert old(files) - todo == old(files);
      files := fs;
    }

    /** `_retrieve_with_get`: run getscu on the command line for `ds`; on
        exit status 0 read the completed count, repair the file names and add
        a positive count to the image counter. The files getscu wrote stay
        whatever its exit status, when it is killed at the timeout, and when
        an exception is raised after it ran. */
    method RetrieveWithGet(ds: Dataset, env: Env) returns (ok: bool)
      requires Retrievable(ds)
      modifies this
      ensures var run := env.getscu(GetscuArgs(localAet, pacsAet, pacsHost, pacsPort, ds, outputDir));
        && ok == GetOk(run)
        && (GetOk(run) ==>
              && files == Renamed(old(files) + run.written, env.renameFails)
              && imageCount == old(imageCount) + Max(CompletedCount(run.stdout), 0))
        && (run.Exited? && run.code != 0 ==> files == old(files) + run.written && imageCount == old(imageCount))
        && (run.TimedOut? || run.Failed? ==> files == old(files) + run.written && imageCount == old(imageCount))
        && (run.NotFound? ==> files == old(files) && imageCount == old(imageCount))
      ensures listening == old(listening) && retrievals == old(retrievals) && trace == old(trace)
    {
      var run := env.getscu(GetscuArgs(localAet, pacsAet, pacsHost, pacsPort, ds, outputDir));
      if run.TimedOut? || run.Failed? {
        files := files + run.written;
        return false;
      }
      if !run.Exited? {
        return false;
      }
      files := files + run.written;
      if run.code != 0 {
        return false;
      }
      var completed := ParseCompleted(run.stdout);
      RenamePass(env.renameFails);
      if completed > 0 {
        imageCount := imageCount + completed;
      }
      return true;
    }

    /** `_retrieve_with_move`: start the storage listener, send the C-MOVE,
        store every object delivered meanwhile through `HandleStore`, and
        shut the listener down on every path. */
    method RetrieveWithMove(ds: Dataset, env: Env) returns (ok: bool)
      modifies this
      ensures var run := env.move(ds);
        && ok == MoveOk(run)
        && (run.Moved? ==>
              && imageCount == old(imageCount) + |run.deliveries|
              && files == old(files) + Written(run.deliveries))
        && (!run.Moved? ==> files == old(files) && imageCount == old(imageCount))
      ensures !listening
      ensures retrievals == old(retrievals) && trace == old(trace)
    {
      var run := env.move(ds);
      if run.ServerFailed? {
        listening := false;
        return false;
      }
      listening := true;
      if run.NotAssociated? {
        listening := false;
        return false;
      }
      var deliveries := run.deliveries;
      var i := 0;
      while i < |deliveries|
        invariant 0 <= i <= |deliveries|
        invariant imageCount == old(imageCount) + i
        invariant files == old(files) + Written(deliveries[..i])
        invariant retrievals == old(retrievals) && trace == old(trace)
      {
        ghost var before := files;
        var _ := HandleStore(deliveries[i].ds, deliveries[i].saved);
        WrittenStep(old(files), before, files, deliveries, i);
        i := i + 1;
      }
      assert deliveries[..i] == deliveries;
      listening := false;
      return !run.raised;
    }

    // -------------------------------------------------------------------
    // What retrieving a run of series does to the counter and the files

    /** The image count and the files after one series is retrieved by the
        configured method, starting from `p`: what `RetrieveWithGet` and
        `RetrieveWithMove` leave for each answer of the environment. */
    function AfterSeries(env: Env, ds: Dataset, p: Progress): Progress
      requires Retrievable(ds)
    {
      if useCGet then
        AfterGet(env.getscu(GetscuArgs(localAet, pacsAet, pacsHost, pacsPort, ds, outputDir)), env.renameFails, p)
      else
        var run := env.move(ds);
        if run.Moved? then Progress(p.count + |run.deliveries|, p.files + Written(run.deliveries)) else p
    }

    /** The image count and the files after the series `reqs`, one after
        the other. */
    function AfterAll(env: Env, reqs: seq<Dataset>, p: Progress): Progress
      requires AllRetrievable(reqs)
    {
      if reqs == [] then p else AfterSeries(env, reqs[|reqs| - 1], AfterAll(env, reqs[..|reqs| - 1], p))
    }

    lemma AfterAllSnoc(env: Env, reqs: seq<Dataset>, ds: Dataset, p: Progress)
      requires AllRetrievable(reqs)
      requires Retrievable(ds)
      ensures AfterAll(env, reqs + [ds], p) == AfterSeries(env, ds, AfterAll(env, reqs, p))
    {
      assert (reqs + [ds])[..|reqs|] == reqs;
    }

    /** Retrieving two runs of series is retrieving one after the other. */
    lemma {:induction false} AfterAllAppend(env: Env, a: seq<Dataset>, b: seq<Dataset>, p: Progress)
      requires AllRetrievable(a)
      requires AllRetrievable(b)
      ensures AllRetrievable(a + b)
      ensures AfterAll(env, a + b, p) == AfterAll(env, b, AfterAll(env, a, p))
      decreases |b|
    {
      AllRetrievableAppend(a, b);
      if b == [] {
        assert a + b == a;
      } else {
        var init := b[..|b| - 1];
        assert a + b == (a + init) + [b[|b| - 1]];
        AllRetrievableAppend(init, [b[|b| - 1]]);
        assert init + [b[|b| - 1]] == b;
        AfterAllAppend(env, a, init, p);
        AfterAllSnoc(env, a + init, b[|b| - 1], p);
        AfterAllSnoc(env, init, b[|b| - 1], AfterAll(env, a, p));
      }
    }

    /** Retrieving never lowers the image count. */
    lemma {:induction false} AfterAllGrows(env: Env, reqs: seq<Dataset>, p: Progress)
      requires AllRetrievable(reqs)
      ensures AfterAll(env, reqs, p).count >= p.count
    {
      if reqs != [] {
        AfterAllGrows(env, reqs[..|reqs| - 1], p);
      }
    }

    /** Whether every retrieval of the run `reqs` succeeds. */
    predicate AllOk(env: Env, reqs: seq<Dataset>)
      requires AllRetrievable(reqs)
      decreases |reqs|
    {
      reqs == [] || (AllOk(env, reqs[..|reqs| - 1]) && SeriesOk(env, reqs[|reqs| - 1]))
    }

    lemma AllOkSnoc(env: Env, reqs: seq<Dataset>, ds: Dataset)
      requires AllRetrievable(reqs) && Retrievable(ds)
      ensures AllRetrievable(reqs + [ds])
      ensures AllOk(env, reqs + [ds]) == (AllOk(env, reqs) && SeriesOk(env, ds))
    {
      AllRetrievableAppend(reqs, [ds]);
      assert (reqs + [ds])[..|reqs|] == reqs;
    }

    /** A run succeeds exactly when each of its retrievals does. */
    lemma {:induction false} AllOkEach(env: Env, reqs: seq<Dataset>)
      requires AllRetrievable(reqs)
      ensures AllOk(env, reqs) <==> forall k :: 0 <= k < |reqs| ==> SeriesOk(env, reqs[k])
      decreases |reqs|
    {
      if reqs != [] {
        var init := reqs[..|reqs| - 1];
        AllOkEach(env, init);
        assert forall k :: 0 <= k < |init| ==> init[k] == reqs[k];
      }
    }

    /** Whether `retrieve_study` reports success for a study: always in a
        dry run; otherwise when the study has NM series and every one of
        them is retrieved. */
    predicate StudyOk(env: Env, studyUid: string)
    {
      var series := SeriesFound(env.find(SeriesQuery(studyUid)));
      dryRun || (series != [] && forall k :: 0 <= k < |series| ==>
                    "SeriesInstanceUID" in series[k] && SeriesOk(env, RetrieveQuery(studyUid, series[k]["SeriesInstanceUID"])))
    }

    /** The SERIES-level retrievals `retrieve_study` makes for a study: none
        in a dry run, otherwise one per NM series of the study up to the
        first one without a SeriesInstanceUID. */
    function StudyRequests(env: Env, studyUid: string): (rs: seq<Dataset>)
      ensures AllRetrievable(rs)
    {
      if dryRun then []
      else
        var series := SeriesFound(env.find(SeriesQuery(studyUid)));
        Requests(studyUid, series, FirstMissing(series))
    }

    /** The two early exits of `retrieve_study`: a dry run succeeds, a study
        without NM series fails; neither raises nor retrieves anything, so
        neither changes the count or the files. */
    lemma StudyEarlyExits(env: Env, studyUid: string, p: Progress)
      ensures var series := SeriesFound(env.find(SeriesQuery(studyUid)));
        (dryRun || series == []) ==>
          && StudyRequests(env, studyUid) == [] && !StudyThrows(env, studyUid)
          && StudyOk(env, studyUid) == dryRun
          && AfterAll(env, StudyRequests(env, studyUid), p) == p
    {
    }

    /** The retrievals for the studies `studies`, study after study. */
    function StudiesRequests(env: Env, studies: seq<Dataset>): (rs: seq<Dataset>)
      ensures AllRetrievable(rs)
    {
      if studies == [] then []
      else
        var first := StudyRequests(env, StudyUid(studies[0]));
        var rest := StudiesRequests(env, studies[1..]);
        AllRetrievableAppend(first, rest);
        first + rest
    }

    /** The retrievals for the first `k` studies begin with those of the
        first study. */
    lemma StudiesRequestsFront(env: Env, studies: seq<Dataset>, k: int)
      requires 1 <= k <= |studies|
      ensures StudiesRequests(env, studies[..k])
           == StudyRequests(env, StudyUid(studies[0])) + StudiesRequests(env, studies[1..][..k - 1])
    {
      assert studies[..k][0] == studies[0];
      assert studies[..k][1..] == studies[1..][..k - 1];
    }

    /** What retrieving one selected study amounts to: its UID, whether
        `retrieve_study` raises for it, the retrievals it makes, and what
        they do to the count and the files. */
    function Summary(env: Env, study: Dataset): Study
    {
      var uid := StudyUid(study);
      var rs := StudyRequests(env, uid);
      Study(uid, StudyThrows(env, uid), rs, q => AfterAll(env, rs, q))
    }

    /** The summaries of the studies `studies`, in order. */
    function Summaries(env: Env, studies: seq<Dataset>): (ss: seq<Study>)
      ensures |ss| == |studies|
    {
      if studies == [] then [] else [Summary(env, studies[0])] + Summaries(env, studies[1..])
    }

    lemma {:induction false} SummaryAt(env: Env, studies: seq<Dataset>, k: int)
      requires 0 <= k < |studies|
      ensures Summaries(env, studies)[k] == Summary(env, studies[k])
      decreases k
    {
      if k > 0 {
        SummaryAt(env, studies[1..], k - 1);
      }
    }

    /** The summary of study `k`, field by field. */
    lemma SummaryFacts(env: Env, studies: seq<Dataset>, k: int, q: Progress)
      requires 0 <= k < |studies|
      ensures var s, uid := Summaries(env, studies)[k], StudyUid(studies[k]);
        && s.uid == uid && s.throws == StudyThrows(env, uid) && s.reqs == StudyRequests(env, uid)
        && s.after(q) == AfterAll(env, s.reqs, q)
    {
      SummaryAt(env, studies, k);
    }

    /** What the loop of `retrieve_images` does over `studies`, starting
        from `p`. */
    function RunStudies(env: Env, studies: seq<Dataset>, maxImages: Option<int>, p: Progress): StudiesRun
    {
      Loop(Summaries(env, studies), maxImages, p)
    }

    /** No study lowers the count. */
    lemma SummariesGrow(env: Env, studies: seq<Dataset>)
      ensures forall k :: 0 <= k < |studies| ==> Grows(Summaries(env, studies)[k].after)
    {
      forall k | 0 <= k < |studies| ensures Grows(Summaries(env, studies)[k].after) {
        SummaryAt(env, studies, k);
        var rs := StudyRequests(env, StudyUid(studies[k]));
        forall q ensures AfterAll(env, rs, q).count >= q.count {
          AfterAllGrows(env, rs, q);
        }
      }
    }

    /** The summaries of the first `n` studies make their retrievals, and
        leave the count and files those retrievals leave. */
    lemma {:induction false} SummariesCompose(env: Env, studies: seq<Dataset>, n: int, p: Progress)
      requires 0 <= n <= |studies|
      ensures Requested(Summaries(env, studies)[..n]) == StudiesRequests(env, studies[..n])
      ensures Compose(Summaries(env, studies)[..n], p) == AfterAll(env, StudiesRequests(env, studies[..n]), p)
      decreases n
    {
      var ss := Summaries(env, studies);
      if n == 0 {
        assert ss[..n] == [] && studies[..n] == [];
      } else {
        var rs := StudyRequests(env, StudyUid(studies[0]));
        var q := AfterAll(env, rs, p);
        assert ss[..n][0] == Summary(env, studies[0]);
        assert ss[..n][0].after(p) == q;
        assert ss[..n][1..] == Summaries(env, studies[1..])[..n - 1];
        SummariesCompose(env, studies[1..], n - 1, q);
        StudiesRequestsFront(env, studies, n);
        AfterAllAppend(env, rs, StudiesRequests(env, studies[1..][..n - 1]), p);
      }
    }

    /** The retrievals made are those of the studies the loop started, in
        order, and the final count and files are what they leave. */
    lemma RunStudiesRetrievals(env: Env, studies: seq<Dataset>, maxImages: Option<int>, p: Progress)
      ensures var e := RunStudies(env, studies, maxImages, p);
        var n := |e.done| + (if e.raised then 1 else 0);
        && n <= |studies|
        && e.reqs == StudiesRequests(env, studies[..n])
        && e.progress == AfterAll(env, e.reqs, p)
    {
      var ss := Summaries(env, studies);
      var e := Loop(ss, maxImages, p);
      var n := |e.done| + (if e.raised then 1 else 0);
      LoopRetrievals(ss, maxImages, p);
      SummariesCompose(env, studies, n, p);
      assert e.reqs == StudiesRequests(env, studies[..n]);
      assert e.progress == AfterAll(env, e.reqs, p);
      assert e == RunStudies(env, studies, maxImages, p);
    }

    /** The count recorded for a study is the count after the retrievals of
        the studies up to and including it. */
    lemma RunStudiesRecords(env: Env, studies: seq<Dataset>, maxImages: Option<int>, p: Progress)
      ensures var e := RunStudies(env, studies, maxImages, p);
        && |e.done| <= |studies|
        && forall j :: 0 <= j < |e.done| ==> e.done[j].1 == AfterAll(env, StudiesRequests(env, studies[..j + 1]), p).count
    {
      var ss := Summaries(env, studies);
      var e := Loop(ss, maxImages, p);
      LoopRecords(ss, maxImages, p);
      assert e == RunStudies(env, studies, maxImages, p);
      forall j | 0 <= j < |e.done|
        ensures e.done[j].1 == AfterAll(env, StudiesRequests(env, studies[..j + 1]), p).count
      {
        assert e.done[j].1 == Compose(ss[..j + 1], p).count;
        SummariesCompose(env, studies, j + 1, p);
      }
    }

    // -------------------------------------------------------------------
    // Series, studies and the top-level loop

    /** One series by the configured method: getscu when C-GET is
        configured, C-MOVE otherwise. */
    method RetrieveSeries(ds: Dataset, env: Env) returns (ok: bool)
      requires Retrievable(ds)
      modifies this
      ensures ok == SeriesOk(env, ds)
      ensures Progress(imageCount, files) == AfterSeries(env, ds, Progress(old(imageCount), old(files)))
      ensures retrievals == old(retrievals) && trace == old(trace)
    {
      if useCGet {
        ok := RetrieveWithGet(ds, env);
      } else {
        ok := RetrieveWithMove(ds, env);
      }
    }

    /** The loop of `retrieve_study` over the NM series of a study:
        retrieve every series in turn, succeeding only when every retrieval
        does. A series without a SeriesInstanceUID raises, after the
        retrievals of the series before it. */
    method RetrieveAllSeries(studyUid: string, series: seq<Dataset>, env: Env) returns (r: Outcome<bool>)
      modifies this
      ensures r.Throw? <==> FirstMissing(series) < |series|
      ensures retrievals == old(retrievals) + Requests(studyUid, series, FirstMissing(series))
      ensures Progress(imageCount, files)
           == AfterAll(env, Requests(studyUid, series, FirstMissing(series)), Progress(old(imageCount), old(files)))
      ensures r.Return? ==>
        r.value == forall k :: 0 <= k < |series| ==> SeriesOk(env, RetrieveQuery(studyUid, series[k]["SeriesInstanceUID"]))
      ensures trace == old(trace)
    {
      ghost var p0 := Progress(imageCount, files);
      var success := true;
      var i := 0;
      while i < |series|
        invariant 0 <= i <= |series|
        invariant forall k :: 0 <= k < i ==> "SeriesInstanceUID" in series[k]
        invariant retrievals == old(retrievals) + Requests(studyUid, series, i)
        invariant Progress(imageCount, files) == AfterAll(env, Requests(studyUid, series, i), p0)
        invariant success == AllOk(env, Requests(studyUid, series, i))
        invariant trace == old(trace)
      {
        if "SeriesInstanceUID" !in series[i] {
          assert FirstMissing(series) == i;
          return Throw;
        }
        ghost var before := Requests(studyUid, series, i);
        var ds := RetrieveQuery(studyUid, series[i]["SeriesInstanceUID"]);
        var ok := RetrieveSeries(ds, env);
        retrievals := retrievals + [ds];
        RequestsSnoc(studyUid, series, i);
        AfterAllSnoc(env, before, ds, p0);
        AllOkSnoc(env, before, ds);
        if !ok {
          success := false;
        }
        i := i + 1;
      }
      assert FirstMissing(series) == |series|;
      ghost var rs := Requests(studyUid, series, i);
      AllOkEach(env, rs);
      assert forall k :: 0 <= k < |series| ==> rs[k] == RetrieveQuery(studyUid, series[k]["SeriesInstanceUID"]);
      return Return(success);
    }

    /** `retrieve_study`: in a dry run report success without contacting
        the archive; otherwise find the NM series of the study, fail when
        there are none, and retrieve them all with `RetrieveAllSeries`. */
    method RetrieveStudy(studyUid: string, env: Env) returns (r: Outcome<bool>)
      modifies this
      ensures r.Return? ==> r.value == StudyOk(env, studyUid)
      ensures r.Throw? <==> StudyThrows(env, studyUid)
      ensures retrievals == old(retrievals) + StudyRequests(env, studyUid)
      ensures Progress(imageCount, files) == AfterAll(env, StudyRequests(env, studyUid), Progress(old(imageCount), old(files)))
      ensures trace == old(trace)
    {
      if dryRun {
        return Return(true);
      }
      var reply := env.find(SeriesQuery(studyUid));
      var series := FindNmSeries(reply, None);
      if reply.Replies? {
        assert Pending(reply.responses)[..|Pending(reply.responses)|] == Pending(reply.responses);
      }
      assert series == SeriesFound(env.find(SeriesQuery(studyUid)));
      if series == [] {
        return Return(false);
      }
      r := RetrieveAllSeries(studyUid, series, env);
    }

    /** The loop of `retrieve_images` over the selected studies: retrieve
        them in order, stopping after the first study that brings the image
        count to a truthy `maxImages`, or at the first study that raises
        (`raised`). */
    method RetrieveStudies(studies: seq<Dataset>, maxImages: Option<int>, env: Env) returns (raised: bool)
      requires forall k :: 0 <= k < |studies| ==> "StudyInstanceUID" in studies[k]
      modifies this
      ensures var e := RunStudies(env, studies, maxImages, Progress(old(imageCount), old(files)));
        && raised == e.raised && trace == old(trace) + e.done && retrievals == old(retrievals) + e.reqs
        && Progress(imageCount, files) == e.progress
    {
      ghost var p0 := Progress(imageCount, files);
      ghost var trace0, retrievals0 := trace, retrievals;
      ghost var ss := Summaries(env, studies);
      ghost var e0 := RunStudies(env, studies, maxImages, p0);
      ghost var done: seq<(string, int)>, reqs: seq<Dataset> := [], [];
      assert ss[0..] == ss;
      raised := false;
      var i := 0;
      while i < |studies|
        invariant 0 <= i <= |studies| && !raised
        invariant trace == trace0 + done && retrievals == retrievals0 + reqs
        invariant e0 == Prefixed(done, reqs, Loop(ss[i..], maxImages, Progress(imageCount, files)))
      {
        var uid := studies[i]["StudyInstanceUID"];
        ghost var before := Progress(imageCount, files);
        var r := RetrieveStudy(uid, env);
        SummaryFacts(env, studies, i, before);
        LoopNext(ss, maxImages, i, e0, done, reqs, before, Progress(imageCount, files));
        AppendAssoc(retrievals0, reqs, ss[i].reqs);
        reqs := reqs + ss[i].reqs;
        if r.Throw? {
          raised := true;
          break;
        }
        AppendAssoc(trace0, done, [(uid, imageCount)]);
        trace := trace + [(uid, imageCount)];
        done := done + [(uid, imageCount)];
        if Reached(maxImages, imageCount) {
          break;
        }
        i := i + 1;
      }
      assert ss[|studies|..] == [];
      assert e0 == StudiesRun(raised, done, reqs, Progress(imageCount, files));
      assert e0 == RunStudies(env, studies, maxImages, Progress(old(imageCount), old(files)));
    }

    /** Where the loop over the studies ends: the studies recorded are the
        first ones, in order, and none of them raised; none but the last
        reached the limit; and the loop stopped at a study that raised,
        after one that reached the limit, or after the last study. */
    lemma FinishedStops(env: Env, studies: seq<Dataset>, maxImages: Option<int>, p: Progress)
      ensures var e := RunStudies(env, studies, maxImages, p);
        && |e.done| <= |studies|
        && (forall j :: 0 <= j < |e.done| ==> e.done[j].0 == StudyUid(studies[j]) && !StudyThrows(env, e.done[j].0))
        && (forall j :: 0 <= j < |e.done| - 1 ==> !Reached(maxImages, e.done[j].1))
        && (e.raised ==> |e.done| < |studies| && StudyThrows(env, StudyUid(studies[|e.done|])))
        && (!e.raised && |e.done| < |studies| ==> |e.done| > 0 && Reached(maxImages, e.done[|e.done| - 1].1))
    {
      var ss := Summaries(env, studies);
      LoopStops(ss, maxImages, p);
      forall j | 0 <= j < |studies| ensures ss[j] == Summary(env, studies[j]) {
        SummaryAt(env, studies, j);
      }
    }

    /** The counts the loop records lie between the first and the final
        count and grow from study to study; unless the loop raised, the last
        one is the final count. */
    lemma FinishedCounts(env: Env, studies: seq<Dataset>, maxImages: Option<int>, p: Progress)
      ensures var e := RunStudies(env, studies, maxImages, p);
        && (forall j :: 0 <= j < |e.done| ==> p.count <= e.done[j].1 <= e.progress.count)
        && (forall i, j :: 0 <= i <= j < |e.done| ==> e.done[i].1 <= e.done[j].1)
        && (!e.raised && |e.done| > 0 ==> e.progress.count == e.done[|e.done| - 1].1)
    {
      SummariesGrow(env, studies);
      LoopCounts(Summaries(env, studies), maxImages, p);
    }

    /** `retrieve_images`: select the NM studies (the date filter of the
        query defaults to the 30 days up to `today`), then retrieve them in
        order with `RetrieveStudies`. An exception of the selection ends the
        run as well (`raised`) before any retrieval. */
    method RetrieveImages(maxStudies: Option<int>, maxImages: Option<int>, filter: Option<string>,
                          today: Date, env: Env) returns (raised: bool)
      requires Valid(today) && Ordinal(today) > 30
      modifies this
      ensures var found := StudiesFound(env.find(StudyQuery(QueryDate(filter, today))), maxStudies);
        && (found.Throw? ==>
              raised && trace == old(trace) && retrievals == old(retrievals)
              && imageCount == old(imageCount) && files == old(files))
        && (found.Return? ==>
              && var e := RunStudies(env, found.value, maxImages, Progress(old(imageCount), old(files)));
              && raised == e.raised && trace == old(trace) + e.done && retrievals == old(retrievals) + e.reqs
              && imageCount == e.progress.count && files == e.progress.files)
      ensures var found := StudiesFound(env.find(StudyQuery(QueryDate(filter, today))), maxStudies);
        found.Return? ==>
          var studies := found.value;
          var done := RunStudies(env, studies, maxImages, Progress(old(imageCount), old(files))).done;
          && |done| <= |studies|
          && (forall j :: 0 <= j < |done| ==> done[j].0 == StudyUid(studies[j]) && !StudyThrows(env, done[j].0))
          && (forall j :: 0 <= j < |done| - 1 ==> !Reached(maxImages, done[j].1))
          && (raised ==> |done| < |studies| && StudyThrows(env, StudyUid(studies[|done|])))
          && (!raised && |done| < |studies| ==> |done| > 0 && Reached(maxImages, done[|done| - 1].1))
          && (forall j :: 0 <= j < |done| ==> old(imageCount) <= done[j].1 <= imageCount)
          && (forall i, j :: 0 <= i <= j < |done| ==> done[i].1 <= done[j].1)
          && (!raised && |done| > 0 ==> imageCount == done[|done| - 1].1)
    {
      ghost var p0 := Progress(imageCount, files);
      var found := SearchStudies(maxStudies, filter, today, env);
      if found.Throw? {
        return true;
      }
      raised := RetrieveStudies(found.value, maxImages, env);
      FinishedStops(env, found.value, maxImages, p0);
      FinishedCounts(env, found.value, maxImages, p0);
    }
  }

  /** How the loop over the studies ends: whether it raised, the UID and
      count recorded for each study, the retrievals made, and the final
      count and files. */
  datatype StudiesRun = StudiesRun(raised: bool, done: seq<(string, int)>, reqs: seq<Dataset>, progress: Progress)

  /** One selected study as the loop sees it: its UID, whether retrieving
      it raises, its retrievals, and what they do to the count and the
      files. */
  datatype Study = Study(uid: string, throws: bool, reqs: seq<Dataset>, after: Progress -> Progress)

  /** A run preceded by the studies `done` and the retrievals `reqs`. */
  function Prefixed(done: seq<(string, int)>, reqs: seq<Dataset>, e: StudiesRun): StudiesRun
  {
    StudiesRun(e.raised, done + e.done, reqs + e.reqs, e.progress)
  }

  lemma PrefixedAssoc(d0: seq<(string, int)>, r0: seq<Dataset>, d1: seq<(string, int)>, r1: seq<Dataset>, e: StudiesRun)
    ensures Prefixed(d0, r0, Prefixed(d1, r1, e)) == Prefixed(d0 + d1, r0 + r1, e)
  {
    AppendAssoc(d0, d1, e.done);
    AppendAssoc(r0, r1, e.reqs);
  }

  /** The loop of `retrieve_images` over the studies `ss`, starting from
      `p`: study after study, retrieve it; stop at a study that raises
      (`retrieve_study` propagates the exception); record the study's UID and
      the count after it otherwise, and stop after recording it when the
      count reaches a truthy `maxImages`. */
  function Loop(ss: seq<Study>, maxImages: Option<int>, p: Progress): StudiesRun
  {
    if ss == [] then StudiesRun(false, [], [], p)
    else
      var q := ss[0].after(p);
      if ss[0].throws then StudiesRun(true, [], ss[0].reqs, q)
      else if Reached(maxImages, q.count) then StudiesRun(false, [(ss[0].uid, q.count)], ss[0].reqs, q)
      else Prefixed([(ss[0].uid, q.count)], ss[0].reqs, Loop(ss[1..], maxImages, q))
  }

  /** The loop from study `i` on, one study at a time. */
  lemma LoopStep(ss: seq<Study>, maxImages: Option<int>, i: int, p: Progress)
    requires 0 <= i < |ss|
    ensures var q := ss[i].after(p);
      Loop(ss[i..], maxImages, p)
        == if ss[i].throws then StudiesRun(true, [], ss[i].reqs, q)
           else if Reached(maxImages, q.count) then StudiesRun(false, [(ss[i].uid, q.count)], ss[i].reqs, q)
           else Prefixed([(ss[i].uid, q.count)], ss[i].reqs, Loop(ss[i + 1..], maxImages, q))
  {
    assert ss[i..][0] == ss[i];
    assert ss[i..][1..] == ss[i + 1..];
  }

  /** What happens at study `i` of the loop, when the count and files
      before it are `p` and after it `q`. */
  lemma LoopNext(ss: seq<Study>, maxImages: Option<int>, i: int, e0: StudiesRun,
                 done: seq<(string, int)>, reqs: seq<Dataset>, p: Progress, q: Progress)
    requires 0 <= i < |ss|
    requires e0 == Prefixed(done, reqs, Loop(ss[i..], maxImages, p))
    requires q == ss[i].after(p)
    ensures ss[i].throws ==> e0 == StudiesRun(true, done, reqs + ss[i].reqs, q)
    ensures !ss[i].throws && Reached(maxImages, q.count) ==>
              e0 == StudiesRun(false, done + [(ss[i].uid, q.count)], reqs + ss[i].reqs, q)
    ensures !ss[i].throws && !Reached(maxImages, q.count) ==>
              e0 == Prefixed(done + [(ss[i].uid, q.count)], reqs + ss[i].reqs, Loop(ss[i + 1..], maxImages, q))
  {
    LoopStep(ss, maxImages, i, p);
    if ss[i].throws {
      PrefixedAssoc(done, reqs, [], ss[i].reqs, StudiesRun(true, [], [], q));
    } else if Reached(maxImages, q.count) {
      PrefixedAssoc(done, reqs, [(ss[i].uid, q.count)], ss[i].reqs, StudiesRun(false, [], [], q));
    } else {
      PrefixedAssoc(done, reqs, [(ss[i].uid, q.count)], ss[i].reqs, Loop(ss[i + 1..], maxImages, q));
    }
  }

  /** The retrievals of the studies `ss`, in order. */
  function Requested(ss: seq<Study>): seq<Dataset>
  {
    if ss == [] then [] else ss[0].reqs + Requested(ss[1..])
  }

  /** The count and files after the studies `ss`, in order. */
  function Compose(ss: seq<Study>, p: Progress): Progress
  {
    if ss == [] then p else Compose(ss[1..], ss[0].after(p))
  }

  /** Retrieving never lowers the count. */
  ghost predicate Grows(f: Progress -> Progress)
  {
    forall q :: f(q).count >= q.count
  }

  /** Where the loop stops: the studies recorded are the first ones in
      order, none of them raised, none but the last reached the limit; it
      stopped at a study that raised (`raised`), after a study that reached
      the limit, or after the last study. */
  lemma {:induction false} LoopStops(ss: seq<Study>, maxImages: Option<int>, p: Progress)
    ensures var e := Loop(ss, maxImages, p);
      && |e.done| + (if e.raised then 1 else 0) <= |ss|
      && (forall j :: 0 <= j < |e.done| ==> e.done[j].0 == ss[j].uid && !ss[j].throws)
      && (forall j :: 0 <= j < |e.done| - 1 ==> !Reached(maxImages, e.done[j].1))
      && (e.raised ==> ss[|e.done|].throws)
      && (!e.raised && |e.done| < |ss| ==> |e.done| > 0 && Reached(maxImages, e.done[|e.done| - 1].1))
  {
    if ss != [] {
      var q := ss[0].after(p);
      if !ss[0].throws && !Reached(maxImages, q.count) {
        var rest := Loop(ss[1..], maxImages, q);
        LoopStops(ss[1..], maxImages, q);
        var e := Loop(ss, maxImages, p);
        assert e.done == [(ss[0].uid, q.count)] + rest.done;
        forall j | 1 <= j < |e.done| ensures e.done[j] == rest.done[j - 1] && ss[j] == ss[1..][j - 1] { }
      }
    }
  }

  /** The counts recorded lie between the first and the final count and
      grow from study to study; unless the loop raised, the last one is the
      final count. */
  lemma {:induction false} LoopCounts(ss: seq<Study>, maxImages: Option<int>, p: Progress)
    requires forall k :: 0 <= k < |ss| ==> Grows(ss[k].after)
    ensures var e := Loop(ss, maxImages, p);
      && p.count <= e.progress.count
      && (forall j :: 0 <= j < |e.done| ==> p.count <= e.done[j].1 <= e.progress.count)
      && (forall i, j :: 0 <= i <= j < |e.done| ==> e.done[i].1 <= e.done[j].1)
      && (!e.raised && |e.done| > 0 ==> e.progress.count == e.done[|e.done| - 1].1)
      && (!e.raised && e.done == [] ==> e.progress == p)
  {
    if ss != [] {
      var q := ss[0].after(p);
      assert Grows(ss[0].after);
      assert q.count >= p.count;
      if !ss[0].throws && !Reached(maxImages, q.count) {
        var rest := Loop(ss[1..], maxImages, q);
        assert forall k :: 0 <= k < |ss[1..]| ==> ss[1..][k] == ss[k + 1];
        LoopCounts(ss[1..], maxImages, q);
        var e := Loop(ss, maxImages, p);
        assert e.done == [(ss[0].uid, q.count)] + rest.done;
        forall j | 1 <= j < |e.done| ensures e.done[j] == rest.done[j - 1] { }
      }
    }
  }

  /** The retrievals made are those of the studies the loop started, and
      the final count and files are what those studies leave. */
  lemma {:induction false} LoopRetrievals(ss: seq<Study>, maxImages: Option<int>, p: Progress)
    ensures var e := Loop(ss, maxImages, p);
      var n := |e.done| + (if e.raised then 1 else 0);
      && n <= |ss|
      && e.reqs == Requested(ss[..n])
      && e.progress == Compose(ss[..n], p)
  {
    if ss != [] {
      var q := ss[0].after(p);
      assert ss[..1][0] == ss[0] && ss[..1][1..] == [];
      if !ss[0].throws && !Reached(maxImages, q.count) {
        LoopRetrievals(ss[1..], maxImages, q);
        var e := Loop(ss, maxImages, p);
        var n := |e.done| + (if e.raised then 1 else 0);
        assert ss[..n][0] == ss[0] && ss[..n][1..] == ss[1..][..n - 1];
      }
    }
  }

  /** The count recorded for the `j`-th study is the count after the first
      `j + 1` studies. */
  lemma {:induction false} LoopRecords(ss: seq<Study>, maxImages: Option<int>, p: Progress)
    ensures var e := Loop(ss, maxImages, p);
      && |e.done| <= |ss|
      && forall j :: 0 <= j < |e.done| ==> e.done[j].1 == Compose(ss[..j + 1], p).count
  {
    if ss != [] {
      var q := ss[0].after(p);
      assert ss[..1][0] == ss[0] && ss[..1][1..] == [];
      if !ss[0].throws && !Reached(maxImages, q.count) {
        var rest := Loop(ss[1..], maxImages, q);
        LoopRecords(ss[1..], maxImages, q);
        var e := Loop(ss, maxImages, p);
        assert e.done == [(ss[0].uid, q.count)] + rest.done;
        forall j | 0 <= j < |e.done| ensures e.done[j].1 == Compose(ss[..j + 1], p).count {
          assert ss[..j + 1][0] == ss[0] && ss[..j + 1][1..] == ss[1..][..j];
          if j > 0 {
            assert e.done[j] == rest.done[j - 1];
          }
        }
      }
    }
  }


  lemma AppendAssoc<T>(a: seq<T>, b: seq<T>, c: seq<T>)
    ensures a + b + c == a + (b + c)
  {
  }

  /** The state of the rename pass after one more file of `all`. */
  lemma RenamedStep(all: set<string>, todo: set<string>, f: string, fails: set<string>)
    requires todo <= all && f in todo
    ensures var before := Renamed(all - todo, fails) + todo;
      var after := Renamed(all - (todo - {f}), fails) + (todo - {f});
      && (!EndsWith(f, Suffix) && f !in fails ==> after == before - {f} + {f + Suffix})
      && (EndsWith(f, Suffix) || f in fails ==> after == before)
  {
    var done := all - todo;
    assert all - (todo - {f}) == done + {f};
    RenamedInsert(done, f, fails);
  }

  /** The rename pass over one more file. */
  lemma RenamedInsert(done: set<string>, f: string, fails: set<string>)
    requires f !in done
    ensures Renamed(done + {f}, fails)
         == Renamed(done, fails) + (if !EndsWith(f, Suffix) && f !in fails then {f + Suffix} else {f})
    ensures !EndsWith(f, Suffix) ==> f !in Renamed(done, fails)
  {
    RenamedSpec(done, fails);
  }
}
