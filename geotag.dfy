/**
 * `process` in geotag.py: select the images, then for each one resolve a position
 * from its time stamp, decide the output path, re-save the image, report progress
 * and write the GPS metadata.  A failed position lookup leaves `pos = None`, and
 * the following `pos.lat` ends the whole run.
 */
module Geotag {
  import opened Wrappers
  import opened Exif
  import opened Paths
  import opened FileSelection

  /** A fix from the telemetry log, as `MavInterpolator.position` returns it. */
  datatype Position = Position(lat: real, lon: real, altitude: real, time: real)

  /** The options `process` reads; `destdir` is "" when none was given. */
  datatype Options = Options(files: string, maxDeltat: real, rollStabilised: bool,
                             destdir: string, inplace: bool)

  /**
   * What `process` learns from outside: whether `files` names a directory, the
   * entries `glob` sees there, file modification times, the position resolver
   * (None where it raises), the epoch-to-local-time conversion, the altitude
   * encoder (None where it raises) and the metadata a freshly saved image carries.
   */
  datatype Environment = Environment(
    isDir: bool,
    listing: seq<string>,
    mtime: string -> real,
    position: (real, real, Option<real>) -> Option<Position>,
    fromTimestamp: real -> string,
    altitudeFraction: real -> Option<Rational>,
    savedTags: map<string, Value>)

  /** The values of one progress line: output basename, coordinates, count, total and percentage. */
  datatype Report = Report(name: string, lat: real, lng: real, count: nat, total: nat, percent: real)

  /** A run either goes through every file or stops at the first file without a position. */
  datatype Outcome = Completed | Crashed(file: string)

  /** The metadata of every file on disk, by path. */
  type Disk = map<string, map<string, Value>>

  /** The roll override handed to the resolver: zero for a roll-stabilised camera, otherwise none. */
  function Roll(opts: Options): Option<real>
  {
    if opts.rollStabilised then Some(0.0) else None
  }

  /** The position looked up for file `f` (lines 122-128). */
  function Resolve(f: string, opts: Options, env: Environment): Option<Position>
  {
    env.position(env.mtime(f), opts.maxDeltat, Roll(opts))
  }

  /** `(100.0*count)/num_files`. */
  function Percent(count: nat, total: nat): real
    requires total > 0
  {
    100.0 * count as real / total as real
  }

  /** Dividing by a positive number keeps order and sign. */
  lemma DivideByPositive(a: real, b: real, t: real)
    requires t > 0.0
    ensures a <= b ==> a / t <= b / t
    ensures 0.0 < a ==> 0.0 < a / t
    ensures (a / t) * t == a
  {
  }

  /** The percentage is `count` hundredths of the total, positive once a file is done, and 100 exactly at the last file. */
  lemma PercentRange(count: nat, total: nat)
    requires total > 0
    ensures Percent(count, total) * total as real == 100.0 * count as real
    ensures count > 0 ==> Percent(count, total) > 0.0
    ensures count <= total ==> Percent(count, total) <= 100.0
    ensures Percent(count, total) == 100.0 <==> count == total
  {
    var t := total as real;
    var c := 100.0 * count as real;
    DivideByPositive(c, 100.0 * t, t);
    DivideByPositive(100.0 * t, c, t);
    assert (100.0 * t) / t == 100.0;
  }

  /** The index of the first file whose position cannot be resolved, or the number of files. */
  function FirstUnresolved(files: seq<string>, opts: Options, env: Environment): (n: nat)
    ensures n <= |files|
    ensures forall i :: 0 <= i < n ==> Resolve(files[i], opts, env).Some?
    ensures n < |files| ==> Resolve(files[n], opts, env).None?
  {
    if files == [] || Resolve(files[0], opts, env).None? then 0
    else
      var n := FirstUnresolved(files[1..], opts, env);
      assert forall i :: 1 <= i < n + 1 ==> files[i] == files[1..][i - 1];
      n + 1
  }

  function Output(f: string, opts: Options): string
  {
    OutputPath(f, opts.inplace, opts.destdir)
  }

  predicate AllResolved(files: seq<string>, opts: Options, env: Environment)
  {
    forall i :: 0 <= i < |files| ==> Resolve(files[i], opts, env).Some?
  }

  /** The disk after the given files have been processed in order. */
  function TagAll(disk: Disk, files: seq<string>, opts: Options, env: Environment): Disk
    requires AllResolved(files, opts, env)
  {
    if files == [] then disk
    else
      var last := files[|files| - 1];
      var pos := Resolve(last, opts, env).value;
      var saved := GeoTagged(env.savedTags, pos.lat, pos.lon, env.altitudeFraction(pos.altitude), env.fromTimestamp(pos.time));
      TagAll(disk, files[..|files| - 1], opts, env)[Output(last, opts) := saved]
  }

  /** Report `r` is the progress line printed for the k-th file of `files`. */
  predicate ReportFor(r: Report, files: seq<string>, k: nat, opts: Options, env: Environment)
    requires k < |files|
  {
    && Resolve(files[k], opts, env).Some?
    && r.name == Basename(Output(files[k], opts))
    && r.lat == Resolve(files[k], opts, env).value.lat
    && r.lng == Resolve(files[k], opts, env).value.lon
    && r.count == k + 1
    && r.total == |files|
    && r.percent == Percent(k + 1, |files|)
  }

  /** Processing one more file adds its container at its output path. */
  lemma TagAllStep(disk: Disk, files: seq<string>, i: nat, opts: Options, env: Environment)
    requires i < |files| && AllResolved(files[..i + 1], opts, env)
    ensures AllResolved(files[..i], opts, env)
    ensures var pos := Resolve(files[i], opts, env).value;
            TagAll(disk, files[..i + 1], opts, env)
              == TagAll(disk, files[..i], opts, env)[Output(files[i], opts) :=
                   GeoTagged(env.savedTags, pos.lat, pos.lon, env.altitudeFraction(pos.altitude), env.fromTimestamp(pos.time))]
  {
    var prefix := files[..i + 1];
    assert prefix[..|prefix| - 1] == files[..i];
    assert prefix[|prefix| - 1] == files[i];
  }

  /** A path that is no processed file's output keeps what the disk had there, or stays absent. */
  lemma {:induction false} TagAllUntouched(disk: Disk, files: seq<string>, opts: Options, env: Environment, p: string)
    requires AllResolved(files, opts, env)
    requires forall k :: 0 <= k < |files| ==> Output(files[k], opts) != p
    ensures p in TagAll(disk, files, opts, env) <==> p in disk
    ensures p in disk ==> TagAll(disk, files, opts, env)[p] == disk[p]
    decreases |files|
  {
    if files != [] {
      var init := files[..|files| - 1];
      assert forall k :: 0 <= k < |init| ==> init[k] == files[k];
      TagAllUntouched(disk, init, opts, env, p);
    }
  }

  /**
   * A processed file whose output path no later file reuses ends up holding exactly the
   * metadata written for its own position.
   */
  lemma {:induction false} TagAllLastWrite(disk: Disk, files: seq<string>, opts: Options, env: Environment, k: nat)
    requires AllResolved(files, opts, env) && k < |files|
    requires forall j :: k < j < |files| ==> Output(files[j], opts) != Output(files[k], opts)
    ensures var pos := Resolve(files[k], opts, env).value;
            && Output(files[k], opts) in TagAll(disk, files, opts, env)
            && TagAll(disk, files, opts, env)[Output(files[k], opts)]
                 == GeoTagged(env.savedTags, pos.lat, pos.lon, env.altitudeFraction(pos.altitude), env.fromTimestamp(pos.time))
    decreases |files|
  {
    if k < |files| - 1 {
      var init := files[..|files| - 1];
      assert forall j :: 0 <= j < |init| ==> init[j] == files[j];
      TagAllLastWrite(disk, init, opts, env, k);
    }
  }

  /** The first file that fails to resolve after a resolved prefix is the one `FirstUnresolved` names. */
  lemma FirstUnresolvedAt(files: seq<string>, i: nat, opts: Options, env: Environment)
    requires i <= |files| && AllResolved(files[..i], opts, env)
    requires i < |files| ==> Resolve(files[i], opts, env).None?
    ensures FirstUnresolved(files, opts, env) == i
  {
  }

  /** Lines 146-149: count the file and build its progress line. */
  method Progress(newfile: string, pos: Position, count: nat, numFiles: nat) returns (newCount: nat, report: Report)
    requires count < numFiles
    ensures newCount == count + 1
    ensures report == Report(Basename(newfile), pos.lat, pos.lon, newCount, numFiles, Percent(newCount, numFiles))
  {
    newCount := count + 1;
    report := Report(Basename(newfile), pos.lat, pos.lon, newCount, numFiles, Percent(newCount, numFiles));
  }

  /** Lines 145 and 150: save the image at `newfile`, then write its GPS metadata. */
  method SaveTagged(newfile: string, pos: Position, env: Environment, disk: Disk) returns (written: Disk)
    ensures written == disk[newfile :=
              GeoTagged(env.savedTags, pos.lat, pos.lon, env.altitudeFraction(pos.altitude), env.fromTimestamp(pos.time))]
  {
    written := disk[newfile := env.savedTags];
    var tags := SetGpsLocation(written[newfile], pos.lat, pos.lon, env.altitudeFraction(pos.altitude), env.fromTimestamp(pos.time));
    written := written[newfile := tags];
  }

  /**
   * Lines 138-150 for one file with a resolved position: decide the output path,
   * re-save the image there, count it, report progress and write its GPS metadata.
   */
  method SaveAndTag(f: string, pos: Position, count: nat, numFiles: nat, opts: Options, env: Environment, disk: Disk)
    returns (newCount: nat, report: Report, written: Disk)
    requires count < numFiles
    ensures newCount == count + 1
    ensures report == Report(Basename(Output(f, opts)), pos.lat, pos.lon, newCount, numFiles, Percent(newCount, numFiles))
    ensures written == disk[Output(f, opts) :=
              GeoTagged(env.savedTags, pos.lat, pos.lon, env.altitudeFraction(pos.altitude), env.fromTimestamp(pos.time))]
  {
    var newfile := OutputPath(f, opts.inplace, opts.destdir);
    newCount, report := Progress(newfile, pos, count, numFiles);
    written := SaveTagged(newfile, pos, env, disk);
  }

  /** A resolved file extends a resolved prefix. */
  lemma ResolvedExtend(files: seq<string>, i: nat, opts: Options, env: Environment)
    requires i < |files| && AllResolved(files[..i], opts, env) && Resolve(files[i], opts, env).Some?
    ensures AllResolved(files[..i + 1], opts, env)
  {
    assert forall k :: 0 <= k < i ==> files[..i + 1][k] == files[..i][k];
  }

  /** Appending the report of file `i` to the reports of the files before it. */
  lemma ReportsExtend(files: seq<string>, i: nat, reports: seq<Report>, report: Report, opts: Options, env: Environment)
    requires i < |files| && |reports| == i
    requires forall k :: 0 <= k < i ==> ReportFor(reports[k], files, k, opts, env)
    requires ReportFor(report, files, i, opts, env)
    ensures forall k :: 0 <= k < i + 1 ==> ReportFor((reports + [report])[k], files, k, opts, env)
  {
    assert forall k :: 0 <= k < i ==> (reports + [report])[k] == reports[k];
  }

  /** One pass of the loop body for a file whose position resolved: the batch state moves from `i` files to `i + 1`. */
  method Step(files: seq<string>, i: nat, pos: Position, opts: Options, env: Environment, disk: Disk,
              reports: seq<Report>, written: Disk)
    returns (count: nat, reports': seq<Report>, written': Disk)
    requires i < |files| && |reports| == i
    requires Resolve(files[i], opts, env) == Some(pos)
    requires AllResolved(files[..i], opts, env)
    requires written == TagAll(disk, files[..i], opts, env)
    requires forall k :: 0 <= k < i ==> ReportFor(reports[k], files, k, opts, env)
    ensures count == i + 1 == |reports'|
    ensures AllResolved(files[..i + 1], opts, env)
    ensures written' == TagAll(disk, files[..i + 1], opts, env)
    ensures forall k :: 0 <= k < i + 1 ==> ReportFor(reports'[k], files, k, opts, env)
  {
    var report;
    count, report, written' := SaveAndTag(files[i], pos, i, |files|, opts, env, written);
    reports' := reports + [report];
    ReportsExtend(files, i, reports, report, opts, env);
    ResolvedExtend(files, i, opts, env);
    TagAllStep(disk, files, i, opts, env);
  }

  /** The `for f in files` loop of `process` (lines 121-150). */
  method RunBatch(files: seq<string>, opts: Options, env: Environment, disk: Disk)
    returns (outcome: Outcome, reports: seq<Report>, written: Disk)
    ensures var n := FirstUnresolved(files, opts, env);
            && outcome == (if n == |files| then Completed else Crashed(files[n]))
            && |reports| == n
            && AllResolved(files[..n], opts, env)
            && written == TagAll(disk, files[..n], opts, env)
    ensures forall k :: 0 <= k < |reports| ==> k < |files| && ReportFor(reports[k], files, k, opts, env)
  {
    var numFiles := |files|;
    var count := 0;
    reports := [];
    written := disk;
    var frameTime := 0.0;
    var i := 0;
    while i < |files|
      invariant i <= |files|
      invariant count == i == |reports|
      invariant AllResolved(files[..i], opts, env)
      invariant written == TagAll(disk, files[..i], opts, env)
      invariant forall k :: 0 <= k < i ==> ReportFor(reports[k], files, k, opts, env)
    {
      var f := files[i];
      frameTime := env.mtime(f);
      var roll := Roll(opts);
      var pos := env.position(frameTime, opts.maxDeltat, roll);
      if pos.None? {
        // `pos.lat` on None raises and ends the run.
        FirstUnresolvedAt(files, i, opts, env);
        outcome := Crashed(f);
        return;
      }
      count, reports, written := Step(files, i, pos.value, opts, env, disk, reports, written);
      i := i + 1;
    }
    FirstUnresolvedAt(files, i, opts, env);
    assert files[..i] == files;
    outcome := Completed;
  }

  /** `process`: select the files, then run the batch over them. */
  method Process(opts: Options, env: Environment, disk: Disk)
    returns (outcome: Outcome, files: seq<string>, reports: seq<Report>, written: Disk)
    ensures !env.isDir ==> files == [opts.files]
    ensures env.isDir ==> Sorted(files) && multiset(files) == multiset(Globbed(opts.files, env.listing))
    ensures var n := FirstUnresolved(files, opts, env);
            && outcome == (if n == |files| then Completed else Crashed(files[n]))
            && |reports| == n
            && AllResolved(files[..n], opts, env)
            && written == TagAll(disk, files[..n], opts, env)
    ensures forall k :: 0 <= k < |reports| ==> k < |files| && ReportFor(reports[k], files, k, opts, env)
    ensures env.isDir && Kept(env.listing) == [] ==> files == [] && outcome == Completed && reports == [] && written == disk
  {
    files := SelectFiles(opts.files, env.isDir, env.listing);
    if env.isDir && Kept(env.listing) == [] {
      assert multiset(files) == multiset{};
    }
    outcome, reports, written := RunBatch(files, opts, env, disk);
  }
}
