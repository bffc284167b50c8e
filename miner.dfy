/** `Miner.mine_to`: the backward walk over the months of a date range, with the output
    file rewritten in full after every month. */
module Miner {
  import opened Wrappers
  import opened Calendar
  import opened Dom
  import opened Listing

  /** What a file holds: a list of records the miner wrote, valid JSON that is not a list (an
      object, a string, a number, `null`), or content `json.load` refuses. */
  datatype FileContent = Written(records: seq<Record>) | OtherJson | Unreadable

  /** The file system, by file name. */
  class Disk {
    var files: map<string, FileContent>

    constructor (files: map<string, FileContent>)
      ensures this.files == files
    {
      this.files := files;
    }
  }

  /** `json.load(open(file_name))` when it gives a list, with any failure (no file, bad
      content) read as `[]`. Loaded JSON that is not a list is never extended (see
      `Extendable`), so `[]` stands for it too. */
  function Load(files: map<string, FileContent>, name: string): (r: seq<Record>)
    ensures name in files && files[name].Written? ==> r == files[name].records
    ensures name !in files || files[name].Unreadable? ==> r == []
  {
    if name in files && files[name].Written? then files[name].records else []
  }

  /** What `json.load` gives for the file has an `extend` method: it is a list, or the load
      failed and the list is `[]`. */
  predicate Extendable(files: map<string, FileContent>, name: string) {
    !(name in files && files[name].OtherJson?)
  }

  /** The listing fetcher, the detail fetcher and the market-data lookup. */
  datatype Sources = Sources(listing: YearMonth -> Option<ListingPage>, detail: DetailSource, market: MarketSource)

  /** What the walk asks of each month: its records, or the exception mining it raised. */
  type MonthMiner = YearMonth -> Result<seq<Record>>

  /** `_mine_from_url` on the pricing page of a month: the page is fetched, then mined. */
  function MonthlyEntries(src: Sources): MonthMiner {
    ym => MinePage(src.listing(ym), src.detail, src.market)
  }

  /** How a run ends: cancelled by the range check, through every month, or stopped by an
      exception raised while mining a month. */
  datatype Outcome = Cancelled | Completed | Aborted(month: YearMonth, error: Error)

  /** The walk's harvest: the batches of the first `n` months back from `start`, `start`
      first, or the first exception one of them raised. */
  function MineMonths(mine: MonthMiner, start: YearMonth, n: nat): Result<seq<seq<Record>>>
    requires start.Valid()
  {
    if n == 0 then Ok([])
    else
      match MineMonths(mine, start, n - 1)
      case Fail(e) => Fail(e)
      case Ok(batches) =>
        match mine(Back(start, n - 1))
        case Fail(e) => Fail(e)
        case Ok(batch) => Ok(batches + [batch])
  }

  /** The walk completes exactly when no month raises, and then holds one batch per month,
      the batch of the month `k` steps back at position `k`. */
  lemma {:induction false} MineMonthsOk(mine: MonthMiner, start: YearMonth, n: nat)
    requires start.Valid()
    ensures MineMonths(mine, start, n).Ok? <==> forall k :: 0 <= k < n ==> mine(Back(start, k)).Ok?
    ensures MineMonths(mine, start, n).Ok? ==>
      var batches := MineMonths(mine, start, n).value;
      |batches| == n && forall k :: 0 <= k < n ==> mine(Back(start, k)) == Ok(batches[k])
  {
    if n > 0 {
      MineMonthsOk(mine, start, n - 1);
      var previous := MineMonths(mine, start, n - 1);
      var last := mine(Back(start, n - 1));
      if previous.Ok? && last.Ok? {
        assert MineMonths(mine, start, n) == Ok(previous.value + [last.value]);
      } else if previous.Ok? {
        assert MineMonths(mine, start, n) == Fail(last.error);
        assert !mine(Back(start, n - 1)).Ok?;
        assert !(forall k :: 0 <= k < n ==> mine(Back(start, k)).Ok?);
      } else {
        assert MineMonths(mine, start, n) == previous;
        assert !(forall k :: 0 <= k < n ==> mine(Back(start, k)).Ok?);
      }
    }
  }

  /** One more month that gives its records extends the harvest by that batch. */
  lemma MineMonthsStep(mine: MonthMiner, start: YearMonth, n: nat, batches: seq<seq<Record>>, batch: seq<Record>)
    requires start.Valid() && MineMonths(mine, start, n) == Ok(batches) && mine(Back(start, n)) == Ok(batch)
    ensures MineMonths(mine, start, n + 1) == Ok(batches + [batch])
  {
  }

  /** Month `k` of the walk back from `start` is the first to raise, and raises `e`. */
  predicate FirstFailure(mine: MonthMiner, start: YearMonth, k: nat, e: Error)
    requires start.Valid()
  {
    mine(Back(start, k)) == Fail(e) && forall j :: 0 <= j < k ==> mine(Back(start, j)).Ok?
  }

  /** A walk that fails reports the exception of the first month that raised. */
  lemma {:induction false} MineMonthsFail(mine: MonthMiner, start: YearMonth, n: nat)
    requires start.Valid() && MineMonths(mine, start, n).Fail?
    ensures exists k :: 0 <= k < n && FirstFailure(mine, start, k, MineMonths(mine, start, n).error)
  {
    if MineMonths(mine, start, n - 1).Fail? {
      MineMonthsFail(mine, start, n - 1);
      assert MineMonths(mine, start, n) == MineMonths(mine, start, n - 1);
    } else {
      MineMonthsOk(mine, start, n - 1);
      assert FirstFailure(mine, start, n - 1, MineMonths(mine, start, n).error);
    }
  }

  /** The records of successive batches, one batch after the other. */
  function Flatten(batches: seq<seq<Record>>): seq<Record>
  {
    if batches == [] then [] else Flatten(batches[..|batches| - 1]) + batches[|batches| - 1]
  }

  /** What has been harvested is never taken back: the records of the first `i` batches are
      a prefix of those of the first `j`, for `i <= j`. */
  lemma {:induction false} FlattenGrows(batches: seq<seq<Record>>, i: nat, j: nat)
    requires i <= j <= |batches|
    ensures Flatten(batches[..i]) <= Flatten(batches[..j])
    decreases j - i
  {
    if i < j {
      FlattenGrows(batches, i, j - 1);
      assert batches[..j][..j - 1] == batches[..j - 1];
    }
  }

  /** `snapshots[k]` is the file content written after the `k + 1`-th batch: what the file
      held before (the loaded records, for the first write) followed by that batch. */
  predicate Checkpoints(initial: seq<Record>, batches: seq<seq<Record>>, snapshots: seq<seq<Record>>)
  {
    |snapshots| == |batches|
    && (snapshots != [] ==> snapshots[0] == initial + batches[0])
    && forall k :: 0 < k < |snapshots| ==> snapshots[k] == snapshots[k - 1] + batches[k]
  }

  /** Writing the last content followed by one more month's batch extends the checkpoints. */
  lemma CheckpointStep(initial: seq<Record>, batches: seq<seq<Record>>, snapshots: seq<seq<Record>>, batch: seq<Record>)
    requires Checkpoints(initial, batches, snapshots)
    ensures Checkpoints(initial, batches + [batch],
                        snapshots + [(if snapshots == [] then initial else snapshots[|snapshots| - 1]) + batch])
  {
  }

  /** Each write holds the loaded records followed by every batch mined so far, in order. */
  lemma {:induction false} CheckpointAt(initial: seq<Record>, batches: seq<seq<Record>>, snapshots: seq<seq<Record>>, k: nat)
    requires Checkpoints(initial, batches, snapshots) && k < |snapshots|
    ensures snapshots[k] == initial + Flatten(batches[..k + 1])
  {
    var prefix := batches[..k + 1];
    assert prefix[..|prefix| - 1] == batches[..k];
    assert Flatten(prefix) == Flatten(batches[..k]) + batches[k];
    if k > 0 {
      CheckpointAt(initial, batches, snapshots, k - 1);
    } else {
      assert batches[..k] == [];
    }
  }

  /** Each checkpoint is a prefix of every later one: the file only ever grows. */
  lemma {:induction false} CheckpointsGrow(initial: seq<Record>, batches: seq<seq<Record>>, snapshots: seq<seq<Record>>, i: nat, j: nat)
    requires Checkpoints(initial, batches, snapshots) && i <= j < |snapshots|
    ensures snapshots[i] <= snapshots[j]
    decreases j - i
  {
    if i < j {
      CheckpointsGrow(initial, batches, snapshots, i, j - 1);
    }
  }

  /** The files after the writes of `snapshots` to `name`: each write replaces the whole file. */
  function Persisted(files: map<string, FileContent>, name: string, snapshots: seq<seq<Record>>): map<string, FileContent>
  {
    if snapshots == [] then files else files[name := Written(snapshots[|snapshots| - 1])]
  }

  lemma PersistStep(files: map<string, FileContent>, name: string, snapshots: seq<seq<Record>>, next: seq<Record>)
    ensures Persisted(files, name, snapshots)[name := Written(next)] == Persisted(files, name, snapshots + [next])
  {
    if snapshots != [] {
      var w := Persisted(files, name, snapshots)[name := Written(next)];
      assert w == files[name := Written(next)];
    }
  }

  /** The state of the walk after `i` months without an exception: their batches are the
      harvest so far, each was written in turn, and `entries` and the files hold the last
      write (the loaded records and the files as they were, before the first). */
  ghost predicate Progress(mine: MonthMiner, start: YearMonth, name: string, initial: seq<Record>,
                           files0: map<string, FileContent>, i: nat, batches: seq<seq<Record>>,
                           snapshots: seq<seq<Record>>, entries: seq<Record>, files: map<string, FileContent>)
    requires start.Valid()
  {
    && |batches| == |snapshots| == i
    && MineMonths(mine, start, i) == Ok(batches)
    && Checkpoints(initial, batches, snapshots)
    && entries == (if i == 0 then initial else snapshots[i - 1])
    && files == Persisted(files0, name, snapshots)
  }

  /** A month that gives its records: its batch is appended, and the list so far is written. */
  lemma ProgressStep(mine: MonthMiner, start: YearMonth, name: string, initial: seq<Record>,
                     files0: map<string, FileContent>, i: nat, batches: seq<seq<Record>>,
                     snapshots: seq<seq<Record>>, entries: seq<Record>, files: map<string, FileContent>,
                     batch: seq<Record>)
    requires start.Valid() && Progress(mine, start, name, initial, files0, i, batches, snapshots, entries, files)
    requires mine(Back(start, i)) == Ok(batch)
    ensures Progress(mine, start, name, initial, files0, i + 1, batches + [batch], snapshots + [entries + batch],
                     entries + batch, files[name := Written(entries + batch)])
  {
    MineMonthsStep(mine, start, i, batches, batch);
    CheckpointStep(initial, batches, snapshots, batch);
    PersistStep(files0, name, snapshots, entries + batch);
  }

  /** The walk of `mine_to` with the month miner `mine`: mines the months from `to`'s back
      to `from`'s into the file `name`. `batches` are the records the completed months gave,
      in walk order, and `snapshots` the successive contents written to the file. */
  method MineToWith(disk: Disk, name: string, from: DateTime, to: DateTime, mine: MonthMiner)
    returns (outcome: Outcome, ghost batches: seq<seq<Record>>, ghost snapshots: seq<seq<Record>>)
    requires from.Valid() && to.Valid()
    modifies disk
    ensures After(from, to) <==> outcome.Cancelled?
    ensures outcome.Cancelled? ==> batches == [] && disk.files == old(disk.files)
    ensures outcome.Completed? ==> MineMonths(mine, MonthOf(to), MonthCount(from, to)) == Ok(batches)
    ensures outcome.Aborted? ==>
      && |batches| < MonthCount(from, to)
      && MineMonths(mine, MonthOf(to), |batches|) == Ok(batches)
      && outcome.month == Back(MonthOf(to), |batches|)
    ensures outcome.Aborted? && mine(outcome.month).Fail? ==> outcome.error == mine(outcome.month).error
    ensures outcome.Aborted? && mine(outcome.month).Ok? ==>
      !Extendable(old(disk.files), name) && outcome.error == NotAList
    ensures !Extendable(old(disk.files), name) ==>
      batches == [] && disk.files == old(disk.files) && !outcome.Completed?
    ensures Checkpoints(Load(old(disk.files), name), batches, snapshots)
    ensures disk.files == Persisted(old(disk.files), name, snapshots)
  {
    ghost var initial := Load(disk.files, name);
    var entries := if name in disk.files && disk.files[name].Written? then disk.files[name].records else [];
    var extendable := !(name in disk.files && disk.files[name].OtherJson?);
    var month, year := to.month, to.year;
    var monthsToMine := (year - from.year) * 12 + (month - from.month) + 1;
    batches, snapshots := [], [];
    MonthCountGuard(from, to);
    if monthsToMine < 0 || After(from, to) {
      return Cancelled, batches, snapshots;
    }
    var i := 0;
    while i < monthsToMine
      invariant 0 <= i <= monthsToMine
      invariant YearMonth(year, month) == Back(MonthOf(to), i)
      invariant !extendable ==> i == 0
      invariant Progress(mine, MonthOf(to), name, initial, old(disk.files), i, batches, snapshots, entries, disk.files)
    {
      var ym := YearMonth(year, month);
      var monthly := mine(ym);
      if monthly.Fail? {
        return Aborted(ym, monthly.error), batches, snapshots;
      }
      if !extendable {
        return Aborted(ym, NotAList), batches, snapshots;
      }
      ProgressStep(mine, MonthOf(to), name, initial, old(disk.files), i, batches, snapshots, entries,
                   disk.files, monthly.value);
      entries := entries + monthly.value;
      batches := batches + [monthly.value];
      month := if month <= 1 then 12 else month - 1;
      year := if month == 12 then year - 1 else year;
      assert YearMonth(year, month) == Previous(ym);
      disk.files := disk.files[name := Written(entries)];
      snapshots := snapshots + [entries];
      i := i + 1;
    }
    return Completed, batches, snapshots;
  }

  /** `mine_to` itself: the walk with `_mine_from_url` as the month miner. */
  method MineTo(disk: Disk, name: string, from: DateTime, to: DateTime, src: Sources)
    returns (outcome: Outcome, ghost batches: seq<seq<Record>>, ghost snapshots: seq<seq<Record>>)
    requires from.Valid() && to.Valid()
    modifies disk
    ensures After(from, to) <==> outcome.Cancelled?
    ensures outcome.Cancelled? ==> batches == [] && disk.files == old(disk.files)
    ensures outcome.Completed? ==> MineMonths(MonthlyEntries(src), MonthOf(to), MonthCount(from, to)) == Ok(batches)
    ensures outcome.Aborted? ==>
      && |batches| < MonthCount(from, to)
      && MineMonths(MonthlyEntries(src), MonthOf(to), |batches|) == Ok(batches)
      && outcome.month == Back(MonthOf(to), |batches|)
    ensures outcome.Aborted? && MinePage(src.listing(outcome.month), src.detail, src.market).Fail? ==>
      outcome.error == MinePage(src.listing(outcome.month), src.detail, src.market).error
    ensures outcome.Aborted? && MinePage(src.listing(outcome.month), src.detail, src.market).Ok? ==>
      !Extendable(old(disk.files), name) && outcome.error == NotAList
    ensures !Extendable(old(disk.files), name) ==>
      batches == [] && disk.files == old(disk.files) && !outcome.Completed?
    ensures Checkpoints(Load(old(disk.files), name), batches, snapshots)
    ensures disk.files == Persisted(old(disk.files), name, snapshots)
  {
    outcome, batches, snapshots := MineToWith(disk, name, from, to, MonthlyEntries(src));
  }
}
