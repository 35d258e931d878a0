/** The loader of the registration pipeline: valid rows become `Player`
    records, committed in fixed-size chunks against a store that rejects a
    duplicate e-mail; and the naming of the error artifacts. */
module Loaders {
  import opened Wrappers
  import opened Text
  import opened Frames

  /** `BATCH`: the number of records per commit. */
  const BATCH: nat := 200

  // ---------------------------------------------------------------------
  // Chunking

  /** The slices `records[i:i+BATCH]` for `i` in `range(0, len(records), BATCH)`. */
  function Chunks<T>(records: seq<T>): seq<seq<T>>
    decreases |records|
  {
    if records == [] then []
    else if |records| <= BATCH then [records]
    else [records[..BATCH]] + Chunks(records[BATCH..])
  }

  function Flatten<T>(xss: seq<seq<T>>): seq<T> {
    if xss == [] then [] else xss[0] + Flatten(xss[1..])
  }

  function Min(a: int, b: int): int {
    if a <= b then a else b
  }

  /** The number of commits: the ceiling of `n / BATCH`. */
  function ChunkCount(n: nat): nat {
    (n + BATCH - 1) / BATCH
  }

  /** Chunk `k` is `records[BATCH * k .. min(BATCH * (k + 1), n)]`, and there
      are `ceil(n / BATCH)` chunks. */
  lemma {:induction false} ChunkAt<T>(records: seq<T>, k: nat)
    requires k < ChunkCount(|records|)
    ensures |Chunks(records)| == ChunkCount(|records|)
    ensures BATCH * k < Min(BATCH * (k + 1), |records|)
    ensures Chunks(records)[k] == records[BATCH * k .. Min(BATCH * (k + 1), |records|)]
  {
    if |records| > BATCH {
      var rest := records[BATCH..];
      ChunkCountStep(|rest|);
      if k > 0 {
        ChunkAt(rest, k - 1);
        assert rest[BATCH * (k - 1) .. Min(BATCH * k, |rest|)]
            == records[BATCH * k .. Min(BATCH * (k + 1), |records|)];
      } else {
        ChunkCountOf(rest);
      }
    }
  }

  lemma {:induction false} ChunkCountOf<T>(records: seq<T>)
    ensures |Chunks(records)| == ChunkCount(|records|)
  {
    if |records| > BATCH {
      ChunkCountOf(records[BATCH..]);
    }
  }

  lemma ChunkCountStep(m: nat)
    ensures ChunkCount(m + BATCH) == ChunkCount(m) + 1
  {
    var q, r := (m + BATCH - 1) / BATCH, (m + BATCH - 1) % BATCH;
    assert m + BATCH - 1 == BATCH * q + r;
    assert m + BATCH + BATCH - 1 == BATCH * (q + 1) + r;
  }

  /** The chunks put back together are the records, in order. */
  lemma {:induction false} ChunksFlatten<T>(records: seq<T>)
    ensures Flatten(Chunks(records)) == records
  {
    if |records| > BATCH {
      ChunksFlatten(records[BATCH..]);
      assert records == records[..BATCH] + records[BATCH..];
    }
  }

  /** Every chunk is non-empty and holds at most `BATCH` records. */
  lemma {:induction false} ChunkSizes<T>(records: seq<T>)
    ensures forall c | c in Chunks(records) :: 0 < |c| <= BATCH
  {
    if |records| > BATCH {
      ChunkSizes(records[BATCH..]);
    }
  }

  /** 450 records are committed as 200, 200 and 50. */
  lemma FourHundredFifty<T>(records: seq<T>)
    requires |records| == 450
    ensures |Chunks(records)| == 3
    ensures |Chunks(records)[0]| == 200 && |Chunks(records)[1]| == 200 && |Chunks(records)[2]| == 50
  {
    ChunkAt(records, 0);
    ChunkAt(records, 1);
    ChunkAt(records, 2);
  }

  // ---------------------------------------------------------------------
  // Players

  /** The four columns a `Player` is built from. */
  datatype Player = Player(firstName: Cell, lastName: Cell, email: Cell, rating: Cell)

  /** The column default of `Player.rating`. */
  const DEFAULT_RATING: int := 1000

  /** `models.Player(first_name=r.get(..), ..., rating=r.get('rating') if
      r.get('rating') is not None else None)`, before it is inserted. */
  function NewPlayer(r: Row): Player {
    var rating := if Get(r, "rating") != Null then Get(r, "rating") else Null;
    Player(Get(r, "first_name"), Get(r, "last_name"), Get(r, "email"), rating)
  }

  /** The row an inserted player leaves in the table: an attribute that is
      `None` is left out of the INSERT, so `rating` takes the column default;
      the other three columns have none and stay NULL. */
  function Inserted(p: Player): (s: Player)
    ensures s.rating == (if p.rating == Null then Int(DEFAULT_RATING) else p.rating)
    ensures s.firstName == p.firstName && s.lastName == p.lastName && s.email == p.email
  {
    if p.rating == Null then p.(rating := Int(DEFAULT_RATING)) else p
  }

  /** The `Player` row a record becomes. The store below keeps rows as the
      insert will write them, so pending objects are held in this form. */
  function ToPlayer(r: Row): Player {
    Inserted(NewPlayer(r))
  }

  /** A player takes each field from the column of that name, `None` when the
      column is absent, except that an absent or `None` rating is stored as
      the default 1000; it depends on no other column. */
  lemma PlayerFields(r: Row, s: Row)
    ensures ToPlayer(r).firstName == Get(r, "first_name") && ToPlayer(r).lastName == Get(r, "last_name")
    ensures ToPlayer(r).email == Get(r, "email")
    ensures ToPlayer(r).rating == if Get(r, "rating") == Null then Int(DEFAULT_RATING) else Get(r, "rating")
    ensures (forall k | k in ["first_name", "last_name", "email", "rating"] :: Get(r, k) == Get(s, k))
            ==> ToPlayer(r) == ToPlayer(s)
  {
    if forall k | k in ["first_name", "last_name", "email", "rating"] :: Get(r, k) == Get(s, k) {
      assert Get(r, "first_name") == Get(s, "first_name") && Get(r, "last_name") == Get(s, "last_name");
      assert Get(r, "email") == Get(s, "email") && Get(r, "rating") == Get(s, "rating");
    }
  }

  function Players(rows: seq<Row>): (ps: seq<Player>)
    ensures |ps| == |rows| && forall i | 0 <= i < |rows| :: ps[i] == ToPlayer(rows[i])
  {
    seq(|rows|, i requires 0 <= i < |rows| => ToPlayer(rows[i]))
  }

  lemma PlayersConcat(a: seq<Row>, b: seq<Row>)
    ensures Players(a + b) == Players(a) + Players(b)
  {
  }

  /** The value the unique index on `Player.email` compares; SQL `NULL`
      (and NaN, which the driver stores as `NULL`) never collides. */
  function EmailKey(c: Cell): Option<string> {
    match c
    case Str(s) => Some(s)
    case Int(n) => Some(IntToString(n))
    case _ => None
  }

  /** No two players share a non-null e-mail: the unique constraint. */
  predicate UniqueEmails(ps: seq<Player>) {
    forall i, j | 0 <= i < j < |ps| :: EmailKey(ps[i].email).None? || EmailKey(ps[i].email) != EmailKey(ps[j].email)
  }

  /** The constraint holds of every prefix of a table it holds of. */
  lemma UniquePrefix(a: seq<Player>, b: seq<Player>)
    requires UniqueEmails(a + b)
    ensures UniqueEmails(a)
  {
    forall i, j | 0 <= i < j < |a|
      ensures EmailKey(a[i].email).None? || EmailKey(a[i].email) != EmailKey(a[j].email)
    {
      assert (a + b)[i] == a[i] && (a + b)[j] == a[j];
    }
  }

  // ---------------------------------------------------------------------
  // The store

  /** The error a failing commit raises. */
  const INTEGRITY_ERROR: string := "UNIQUE constraint failed: Player.email"

  /** A database session: the committed `Player` table and the objects added
      since the last commit. */
  class Session {
    var committed: seq<Player>
    var pending: seq<Player>

    ghost predicate Valid()
      reads this
    {
      UniqueEmails(committed)
    }

    constructor (initial: seq<Player>)
      requires UniqueEmails(initial)
      ensures Valid() && committed == initial && pending == []
    {
      committed := initial;
      pending := [];
    }

    /** `db.add_all(objs)`. */
    method AddAll(objs: seq<Player>)
      modifies this
      ensures committed == old(committed) && pending == old(pending) + objs
    {
      pending := pending + objs;
    }

    /** `db.commit()`: fails, changing nothing, when the added objects would
        break the unique constraint; otherwise they become committed. */
    method Commit() returns (ok: bool)
      requires Valid()
      modifies this
      ensures Valid()
      ensures ok == UniqueEmails(old(committed) + old(pending))
      ensures ok ==> committed == old(committed) + old(pending) && pending == []
      ensures !ok ==> committed == old(committed) && pending == old(pending)
    {
      ok := UniqueEmails(committed + pending);
      if ok {
        committed := committed + pending;
        pending := [];
      }
    }

    /** `db.rollback()`: the added objects are discarded. */
    method Rollback()
      modifies this
      ensures committed == old(committed) && pending == []
    {
      pending := [];
    }
  }

  // ---------------------------------------------------------------------
  // The chunked load

  /** What a run of the chunk loop leaves: the committed table and either the
      count `created` or the exception. */
  datatype LoadOutcome = LoadOutcome(committed: seq<Player>, result: Result<nat, string>)

  /** The chunk loop from `committed`, with `created` records counted so far:
      each chunk is committed in turn; the first one that fails is rolled back
      and its exception re-raised. */
  function Load(committed: seq<Player>, chunks: seq<seq<Row>>, created: nat): LoadOutcome
    decreases |chunks|
  {
    if chunks == [] then LoadOutcome(committed, Ok(created))
    else
      var objs := Players(chunks[0]);
      if UniqueEmails(committed + objs) then Load(committed + objs, chunks[1..], created + |objs|)
      else LoadOutcome(committed, Err(INTEGRITY_ERROR))
  }

  /** On success every record is committed, in order, and counted. */
  lemma {:induction false} LoadSuccess(committed: seq<Player>, chunks: seq<seq<Row>>, created: nat)
    decreases |chunks|
    requires Load(committed, chunks, created).result.Ok?
    ensures Load(committed, chunks, created).committed == committed + Players(Flatten(chunks))
    ensures Load(committed, chunks, created).result.value == created + |Flatten(chunks)|
  {
    if chunks != [] {
      var objs := Players(chunks[0]);
      LoadSuccess(committed + objs, chunks[1..], created + |objs|);
      PlayersConcat(chunks[0], Flatten(chunks[1..]));
    }
  }

  /** A chunk that keeps the constraint is committed and counted. */
  lemma LoadCommits(committed: seq<Player>, chunks: seq<seq<Row>>, created: nat)
    requires chunks != [] && UniqueEmails(committed + Players(chunks[0]))
    ensures Load(committed, chunks, created) == Load(committed + Players(chunks[0]), chunks[1..], created + |chunks[0]|)
  {
  }

  /** A chunk that breaks the constraint ends the load with the exception. */
  lemma LoadStops(committed: seq<Player>, chunks: seq<seq<Row>>, created: nat)
    requires chunks != [] && !UniqueEmails(committed + Players(chunks[0]))
    ensures Load(committed, chunks, created) == LoadOutcome(committed, Err(INTEGRITY_ERROR))
  {
  }

  lemma FlattenPrefixStep<T>(xss: seq<seq<T>>, k: nat)
    requires k < |xss|
    ensures Flatten(xss[..k + 1]) == xss[0] + Flatten(xss[1..][..k])
  {
    assert xss[..k + 1][0] == xss[0] && xss[..k + 1][1..] == xss[1..][..k];
  }

  /** The load stopped at chunk `k`: all chunks before it are in `table`,
      and adding chunk `k` to it breaks the constraint. */
  predicate FailsAt(committed: seq<Player>, chunks: seq<seq<Row>>, k: int, table: seq<Player>) {
    && 0 <= k < |chunks|
    && table == committed + Players(Flatten(chunks[..k]))
    && !UniqueEmails(table + Players(chunks[k]))
  }

  /** Stopping at chunk `k` after the first chunk was committed is stopping
      at chunk `k + 1` of the whole load. */
  lemma FailsAtStep(committed: seq<Player>, chunks: seq<seq<Row>>, k: int, table: seq<Player>)
    requires chunks != [] && FailsAt(committed + Players(chunks[0]), chunks[1..], k, table)
    ensures FailsAt(committed, chunks, k + 1, table)
  {
    FlattenPrefixStep(chunks, k);
    PlayersConcat(chunks[0], Flatten(chunks[1..][..k]));
    assert chunks[k + 1] == chunks[1..][k];
  }

  /** On failure the chunks before the failing one stay committed, whole,
      and the failing chunk would have broken the constraint. */
  lemma {:induction false} LoadFailure(committed: seq<Player>, chunks: seq<seq<Row>>, created: nat)
    decreases |chunks|
    requires Load(committed, chunks, created).result.Err?
    ensures exists k :: FailsAt(committed, chunks, k, Load(committed, chunks, created).committed)
  {
    var out := Load(committed, chunks, created);
    var objs := Players(chunks[0]);
    if UniqueEmails(committed + objs) {
      var tail := chunks[1..];
      LoadCommits(committed, chunks, created);
      assert out == Load(committed + objs, tail, created + |objs|);
      LoadFailure(committed + objs, tail, created + |objs|);
      var k :| FailsAt(committed + objs, tail, k, out.committed);
      FailsAtStep(committed, chunks, k, out.committed);
    } else {
      LoadStops(committed, chunks, created);
      assert Flatten(chunks[..0]) == [] && Players([]) == [];
      assert FailsAt(committed, chunks, 0, out.committed);
    }
  }

  /** The load succeeds exactly when the whole batch keeps the constraint. */
  lemma {:induction false} LoadSucceedsIff(committed: seq<Player>, chunks: seq<seq<Row>>, created: nat)
    decreases |chunks|
    requires UniqueEmails(committed)
    ensures Load(committed, chunks, created).result.Ok? <==> UniqueEmails(committed + Players(Flatten(chunks)))
  {
    if chunks == [] {
      assert Players(Flatten(chunks)) == [];
      assert committed + Players(Flatten(chunks)) == committed;
    } else {
      var objs := Players(chunks[0]);
      var rest := Players(Flatten(chunks[1..]));
      PlayersConcat(chunks[0], Flatten(chunks[1..]));
      assert committed + Players(Flatten(chunks)) == (committed + objs) + rest;
      if UniqueEmails(committed + objs) {
        LoadCommits(committed, chunks, created);
        LoadSucceedsIff(committed + objs, chunks[1..], created + |objs|);
      } else {
        LoadStops(committed, chunks, created);
        if UniqueEmails(committed + objs + rest) {
          UniquePrefix(committed + objs, rest);
        }
      }
    }
  }

  /** The objects of one chunk, built record by record. */
  method BuildPlayers(chunk: seq<Row>) returns (objs: seq<Player>)
    ensures objs == Players(chunk)
  {
    objs := [];
    for j := 0 to |chunk|
      invariant objs == Players(chunk[..j])
    {
      assert chunk[..j + 1] == chunk[..j] + [chunk[j]];
      objs := objs + [ToPlayer(chunk[j])];
    }
    assert chunk[..|chunk|] == chunk;
  }

  lemma ChunksFrom<T>(records: seq<T>, i: nat)
    requires i < |records|
    ensures Chunks(records[i..]) == [records[i..Min(i + BATCH, |records|)]] + Chunks(records[Min(i + BATCH, |records|)..])
  {
    if |records[i..]| > BATCH {
      assert records[i..][..BATCH] == records[i..i + BATCH];
      assert records[i..][BATCH..] == records[i + BATCH..];
    } else {
      assert records[i..] == records[i..|records|];
      assert records[|records|..] == [];
    }
  }

  /** `bulk_insert_players`: each chunk is added and committed; `created`
      counts the committed records; a failing commit is rolled back and its
      exception re-raised. */
  method BulkInsertPlayers(db: Session, records: seq<Row>) returns (r: Result<nat, string>)
    requires db.Valid() && db.pending == []
    modifies db
    ensures db.Valid() && db.pending == []
    ensures r == Load(old(db.committed), Chunks(records), 0).result
    ensures db.committed == Load(old(db.committed), Chunks(records), 0).committed
  {
    ghost var start := db.committed;
    var created: nat := 0;
    var i := 0;
    while i < |records|
      invariant i <= |records| && db.Valid() && db.pending == []
      invariant Load(start, Chunks(records), 0) == Load(db.committed, Chunks(records[i..]), created)
      decreases |records| - i
    {
      var next := Min(i + BATCH, |records|);
      var chunk := records[i..next];
      ChunksFrom(records, i);
      assert Chunks(records[i..])[0] == chunk && Chunks(records[i..])[1..] == Chunks(records[next..]);
      var objs := BuildPlayers(chunk);
      db.AddAll(objs);
      ghost var before := db.committed;
      assert db.pending == objs;
      var ok := db.Commit();
      if !ok {
        LoadStops(before, Chunks(records[i..]), created);
        db.Rollback();
        return Err(INTEGRITY_ERROR);
      }
      LoadCommits(before, Chunks(records[i..]), created);
      created := created + |objs|;
      i := next;
    }
    assert records[i..] == [];
    return Ok(created);
  }

  /** What `bulk_insert_players` promises: on success it returns the number
      of records and the table gains their players in order; on failure
      whole chunks before the failing one stay committed. */
  lemma BulkInsertOutcome(committed: seq<Player>, records: seq<Row>)
    requires UniqueEmails(committed)
    ensures var out := Load(committed, Chunks(records), 0);
            out.result.Ok? <==> UniqueEmails(committed + Players(records))
    ensures var out := Load(committed, Chunks(records), 0);
            out.result.Ok? ==> out.result.value == |records| && out.committed == committed + Players(records)
    ensures var out := Load(committed, Chunks(records), 0);
            out.result.Err? ==> exists k | 0 <= k < |Chunks(records)| && BATCH * k <= |records| ::
              out.committed == committed + Players(records[..BATCH * k])
  {
    ChunksFlatten(records);
    LoadSucceedsIff(committed, Chunks(records), 0);
    var out := Load(committed, Chunks(records), 0);
    if out.result.Ok? {
      LoadSuccess(committed, Chunks(records), 0);
    } else {
      LoadFailure(committed, Chunks(records), 0);
      var k :| FailsAt(committed, Chunks(records), k, out.committed);
      ChunkCountOf(records);
      ChunkAt(records, k);
      ChunkPrefix(records, k);
    }
  }

  /** The first `k` chunks put back together are the first `BATCH * k` records
      (all of them once `k` reaches the last chunk). */
  lemma {:induction false} ChunkPrefix<T>(records: seq<T>, k: nat)
    requires k <= |Chunks(records)|
    ensures Flatten(Chunks(records)[..k]) == records[..Min(BATCH * k, |records|)]
  {
    if k > 0 {
      if |records| > BATCH {
        var rest := records[BATCH..];
        ChunkPrefix(rest, k - 1);
        FlattenPrefixStep(Chunks(records), k - 1);
        assert records[..Min(BATCH * k, |records|)] == records[..BATCH] + rest[..Min(BATCH * (k - 1), |rest|)];
      } else {
        assert k == 1 && Chunks(records)[..k] == [records];
        assert Flatten([records]) == records + Flatten<T>([]);
        assert records[..Min(BATCH * k, |records|)] == records;
      }
    }
  }

  // ---------------------------------------------------------------------
  // Error artifacts

  /** `dir.split('/')`: the names between the slashes, empty ones included. */
  function SplitSlash(s: string): (r: seq<string>)
    ensures |r| > 0
  {
    if s == [] then [""]
    else if s[0] == '/' then [""] + SplitSlash(s[1..])
    else var rest := SplitSlash(s[1..]); [[s[0]] + rest[0]] + rest[1..]
  }

  /** The parts pathlib keeps of those names: empty names and `.` go. */
  function KeptParts(names: seq<string>): seq<string> {
    if names == [] then []
    else (if names[0] == "" || names[0] == "." then [] else [names[0]]) + KeptParts(names[1..])
  }

  /** The root of a POSIX path: exactly two leading slashes are kept, one or
      three and more become one. */
  function PathRoot(s: string): string {
    if |s| >= 2 && s[0] == '/' && s[1] == '/' && (|s| == 2 || s[2] != '/') then "//"
    else if |s| >= 1 && s[0] == '/' then "/"
    else ""
  }

  /** What `str(Path(dir) / name)` writes before `name`: the root and the
      kept parts of `dir`, then a slash when there are parts. */
  function DirPrefix(dir: string): string {
    var parts := KeptParts(SplitSlash(dir));
    if parts == [] then PathRoot(dir) else PathRoot(dir) + Join(parts, "/") + "/"
  }

  /** `errors_dir / name`, rendered as pathlib does, for a `name` that is a
      single file name. */
  function PathJoin(dir: string, name: string): string {
    DirPrefix(dir) + name
  }

  lemma {:induction false} SplitAround(a: string, b: string)
    ensures SplitSlash(a + "/" + b) == SplitSlash(a) + SplitSlash(b)
  {
    if a == [] {
      assert a + "/" + b == "/" + b && ("/" + b)[1..] == b;
    } else {
      assert (a + "/" + b)[1..] == a[1..] + "/" + b;
      SplitAround(a[1..], b);
    }
  }

  lemma {:induction false} KeptConcat(x: seq<string>, y: seq<string>)
    ensures KeptParts(x + y) == KeptParts(x) + KeptParts(y)
  {
    if x == [] {
      assert x + y == y;
    } else {
      assert (x + y)[1..] == x[1..] + y;
      KeptConcat(x[1..], y);
    }
  }

  /** Splitting and joining again gives the path back. */
  lemma {:induction false} JoinSplit(s: string)
    ensures Join(SplitSlash(s), "/") == s
  {
    if s != [] {
      JoinSplit(s[1..]);
      var rest := SplitSlash(s[1..]);
      if s[0] != '/' && |rest| > 1 {
        assert ([[s[0]] + rest[0]] + rest[1..])[1..] == rest[1..];
      }
    }
  }

  /** Two directories with the same root and the same kept parts give the
      same paths. */
  lemma SamePrefix(d1: string, d2: string, name: string)
    requires PathRoot(d1) == PathRoot(d2) && KeptParts(SplitSlash(d1)) == KeptParts(SplitSlash(d2))
    ensures PathJoin(d1, name) == PathJoin(d2, name)
  {
  }

  /** A relative directory with no empty or `.` part is used as written:
      `data/errors` gives `data/errors/<name>`. */
  lemma PathJoinOfPlain(dir: string, name: string)
    requires dir != [] && dir[0] != '/' && KeptParts(SplitSlash(dir)) == SplitSlash(dir)
    ensures PathJoin(dir, name) == dir + "/" + name
  {
    assert PathRoot(dir) == "";
    assert DirPrefix(dir) == dir + "/" by {
      JoinSplit(dir);
    }
  }

  lemma SplitOfSlashes()
    ensures SplitSlash("/") == ["", ""] && SplitSlash("//") == ["", "", ""]
  {
    assert "/"[1..] == [] && "//"[1..] == "/";
  }

  lemma SplitOfDot()
    ensures SplitSlash(".") == ["."]
  {
    var s := ".";
    assert s[1..] == [] && s[0] == '.';
    assert SplitSlash(s[1..]) == [""];
    assert [s[0]] + "" == s;
  }

  lemma KeptOfDot()
    ensures KeptParts(["."]) == [] && KeptParts([""]) == []
  {
    assert ["."][1..] == [] && [""][1..] == [];
  }

  /** `Path("")` and `Path(".")` add nothing: the name alone. */
  lemma PathJoinHere(name: string)
    ensures PathJoin("", name) == name && PathJoin(".", name) == name
  {
    SplitOfDot();
    KeptOfDot();
    assert DirPrefix(".") == "";
  }

  /** A directory with a part is neither empty nor only its root. */
  lemma PartsNotRoot(dir: string)
    requires KeptParts(SplitSlash(dir)) != []
    ensures dir != "" && dir != "/" && dir != "//"
  {
    SplitOfSlashes();
  }

  lemma RootTrailingSlash(dir: string)
    requires dir != "" && dir != "/" && dir != "//"
    ensures PathRoot(dir + "/") == PathRoot(dir)
  {
    if |dir| > 2 {
      assert (dir + "/")[..3] == dir[..3];
    }
  }

  /** A trailing slash makes no difference once the directory has a part. */
  lemma PathJoinTrailingSlash(dir: string, name: string)
    requires KeptParts(SplitSlash(dir)) != []
    ensures PathJoin(dir + "/", name) == PathJoin(dir, name)
  {
    assert KeptParts(SplitSlash(dir + "/")) == KeptParts(SplitSlash(dir)) by {
      assert dir + "/" == dir + "/" + "";
      SplitAround(dir, "");
      KeptConcat(SplitSlash(dir), [""]);
      KeptOfDot();
    }
    PartsNotRoot(dir);
    RootTrailingSlash(dir);
    SamePrefix(dir + "/", dir, name);
  }

  /** A leading `./` makes no difference to a relative directory. */
  lemma PathJoinDotPrefix(dir: string, name: string)
    requires PathRoot(dir) == ""
    ensures PathJoin("./" + dir, name) == PathJoin(dir, name)
  {
    assert KeptParts(SplitSlash("./" + dir)) == KeptParts(SplitSlash(dir)) by {
      assert "./" + dir == "." + "/" + dir;
      SplitAround(".", dir);
      SplitOfDot();
      KeptOfDot();
      KeptConcat(["."], SplitSlash(dir));
    }
    assert PathRoot("./" + dir) == "";
    SamePrefix("./" + dir, dir, name);
  }

  /** A doubled slash inside a relative directory counts as one. */
  lemma PathJoinDoubleSlash(a: string, b: string, name: string)
    requires a != [] && a[0] != '/'
    ensures PathJoin(a + "//" + b, name) == PathJoin(a + "/" + b, name)
  {
    assert KeptParts(SplitSlash(a + "//" + b)) == KeptParts(SplitSlash(a + "/" + b)) by {
      assert a + "//" + b == a + "/" + ("/" + b);
      assert "/" + b == [] + "/" + b;
      SplitAround(a, "/" + b);
      SplitAround([], b);
      SplitAround(a, b);
      KeptOfDot();
      KeptConcat(SplitSlash(a), [""] + SplitSlash(b));
      KeptConcat([""], SplitSlash(b));
      KeptConcat(SplitSlash(a), SplitSlash(b));
    }
    assert PathRoot(a + "//" + b) == "" == PathRoot(a + "/" + b);
    SamePrefix(a + "//" + b, a + "/" + b, name);
  }

  /** `save_errors`: nothing for a missing or empty invalid table; otherwise
      the CSV and JSON paths `errors_<source>.csv` and `errors_<source>.json`
      under the errors directory. */
  function SaveErrors(errorsDir: string, invalid: Option<seq<Row>>, source: string): (r: Option<(string, string)>)
    ensures r.None? <==> invalid.None? || invalid.value == []
  {
    if invalid.None? || invalid.value == [] then None
    else Some((PathJoin(errorsDir, "errors_" + source + ".csv"), PathJoin(errorsDir, "errors_" + source + ".json")))
  }

  /** The two artifacts of a source are distinct, and different sources
      never share an artifact. */
  lemma ArtifactNames(errorsDir: string, rows: seq<Row>, a: string, b: string)
    requires rows != []
    ensures SaveErrors(errorsDir, Some(rows), a).value.0 != SaveErrors(errorsDir, Some(rows), a).value.1
    ensures SaveErrors(errorsDir, Some(rows), a).value.0 == SaveErrors(errorsDir, Some(rows), b).value.0 ==> a == b
    ensures SaveErrors(errorsDir, Some(rows), a).value.1 == SaveErrors(errorsDir, Some(rows), b).value.1 ==> a == b
  {
    ArtifactPaths(errorsDir, rows, a);
    ArtifactPaths(errorsDir, rows, b);
    DistinctNames(DirPrefix(errorsDir) + "errors_", a, b);
  }

  /** The two paths `save_errors` returns, spelled out. */
  lemma ArtifactPaths(errorsDir: string, rows: seq<Row>, a: string)
    requires rows != []
    ensures SaveErrors(errorsDir, Some(rows), a)
         == Some((DirPrefix(errorsDir) + "errors_" + a + ".csv", DirPrefix(errorsDir) + "errors_" + a + ".json"))
  {
    var d := DirPrefix(errorsDir);
    Associate(d, "errors_", a, ".csv");
    Associate(d, "errors_", a, ".json");
  }

  lemma Associate(d: string, x: string, y: string, z: string)
    ensures d + (x + y + z) == d + x + y + z
  {
  }

  /** Names built from one prefix and one source differ by extension, and
      each determines its source. */
  lemma DistinctNames(pre: string, a: string, b: string)
    ensures pre + a + ".csv" != pre + a + ".json"
    ensures pre + a + ".csv" == pre + b + ".csv" ==> a == b
    ensures pre + a + ".json" == pre + b + ".json" ==> a == b
  {
    assert |pre + a + ".csv"| == |pre + a + ".json"| - 1;
    ExtensionStrip(pre, a, b, ".csv");
    ExtensionStrip(pre, a, b, ".json");
  }

  /** `pre + a + ext == pre + b + ext` only when `a == b`. */
  lemma ExtensionStrip(pre: string, a: string, b: string, ext: string)
    ensures pre + a + ext == pre + b + ext ==> a == b
  {
    if pre + a + ext == pre + b + ext {
      var s := pre + a + ext;
      assert |a| == |b|;
      assert a == s[|pre|..|pre| + |a|];
      assert b == (pre + b + ext)[|pre|..|pre| + |b|];
    }
  }
}
