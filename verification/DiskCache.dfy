/** The disk cache of a dataset: records are loaded from a file, or taken from the wrapped
    producer and written to it, and a token decides whether an old file may be used. */
module DiskCache {
  import opened Basics
  import Bits

  // ---------------------------------------------------------------- the tensor codec

  /** `write_tensor` and `read_tensor`: the bytes of a tensor, and the tensor at the front of some
      bytes with the number of bytes it took, or nothing where reading throws. */
  datatype Codec<!T(!new)> = Codec(enc: T -> seq<byte>, dec: seq<byte> -> Option<(T, int)>)
  {
    /** A tensor takes at least one byte, and no more than there are. */
    ghost predicate ReadsForward() {
      forall bs :: dec(bs).Some? ==> 0 < dec(bs).value.1 <= |bs|
    }

    /** What was written is read back, whatever follows it. */
    ghost predicate Lawful() {
      && ReadsForward()
      && forall t, rest :: dec(enc(t) + rest) == Some((t, |enc(t)|))
    }
  }

  function EncodeAll<T(!new)>(c: Codec<T>, records: seq<T>): seq<byte> {
    if records == [] then [] else EncodeAll(c, records[..|records| - 1]) + c.enc(records[|records| - 1])
  }

  /** The tensors read off the front until the bytes end or one cannot be read. */
  ghost function ReadAll<T(!new)>(c: Codec<T>, bs: seq<byte>): seq<T>
    requires c.ReadsForward()
    decreases |bs|
  {
    if bs == [] || c.dec(bs).None? then []
    else [c.dec(bs).value.0] + ReadAll(c, bs[c.dec(bs).value.1..])
  }

  lemma {:induction false} EncodeAllConcat<T(!new)>(c: Codec<T>, a: seq<T>, b: seq<T>)
    ensures EncodeAll(c, a + b) == EncodeAll(c, a) + EncodeAll(c, b)
    decreases |b|
  {
    if b == [] {
      assert a + b == a;
    } else {
      var n := |b| - 1;
      assert (a + b)[..|a| + n] == a + b[..n];
      EncodeAllConcat(c, a, b[..n]);
    }
  }

  /** Reading a well-formed file gives back exactly the records it was written from. */
  lemma {:induction false} ReadAllOfEncoded<T(!new)>(c: Codec<T>, records: seq<T>)
    requires c.Lawful()
    ensures ReadAll(c, EncodeAll(c, records)) == records
    decreases |records|
  {
    if records != [] {
      var t, rest := records[0], records[1..];
      assert records == [t] + rest;
      EncodeAllConcat(c, [t], rest);
      assert [t][..0] == [];
      assert EncodeAll(c, [t]) == c.enc(t);
      var tail := EncodeAll(c, rest);
      var bs := c.enc(t) + tail;
      assert c.dec(bs) == Some((t, |c.enc(t)|));
      assert bs[|c.enc(t)|..] == tail;
      ReadAllOfEncoded(c, rest);
    }
  }

  // ---------------------------------------------------------------- the wrapped producer

  /** A dataset: `item(i)` is what the i-th call of next yields, counted from its creation. */
  class Producer<T(!new)> {
    const item: nat -> T
    const size: nat
    var cursor: nat

    constructor (item: nat -> T, size: nat, cursor: nat)
      ensures this.item == item && this.size == size && this.cursor == cursor
    {
      this.item, this.size, this.cursor := item, size, cursor;
    }

    method Next() returns (t: T)
      modifies this
      ensures t == item(old(cursor)) && cursor == old(cursor) + 1
    {
      t := item(cursor);
      cursor := cursor + 1;
    }
  }

  /** The n items from position `from` on. */
  function Items<T(!new)>(item: nat -> T, from: nat, n: nat): (r: seq<T>)
    ensures |r| == n
  {
    seq(n, i requires 0 <= i < n => item(from + i))
  }

  // ---------------------------------------------------------------- one session

  /** The cache file and the token file; None where the file does not exist. */
  datatype Files = Files(cache: Option<seq<byte>>, token: Option<string>)

  /** What std::getline reads from the token file. */
  function FirstLine(s: string): string {
    if s == "" || s[0] == '\n' then "" else [s[0]] + FirstLine(s[1..])
  }

  function TokenRead(files: Files): string {
    match files.token case None => "" case Some(s) => FirstLine(s)
  }

  /** The current token does not call for the old files to be removed. */
  predicate Keeps(files: Files, current: string) {
    current == "" || TokenRead(files) == current
  }

  function CacheSeen(files: Files, current: string): Option<seq<byte>> {
    if Keeps(files, current) then files.cache else None
  }

  ghost function Loaded<T(!new)>(c: Codec<T>, files: Files, current: string): seq<T>
    requires c.ReadsForward()
  {
    match CacheSeen(files, current) case None => [] case Some(bs) => ReadAll(c, bs)
  }

  /** What the constructor takes from the base: everything when nothing was loaded, the missing
      number of items when the base has grown, otherwise nothing. */
  function Fetched<T(!new)>(loaded: seq<T>, item: nat -> T, cursor: nat, size: nat): seq<T> {
    if |loaded| < size then Items(item, cursor, size - |loaded|) else []
  }

  /** A session that fetches these items leaves these records and files: the cache file is
      rewritten when nothing was loaded and appended to otherwise. */
  ghost predicate Leaves<T(!new)>(c: Codec<T>, files: Files, current: string, fetched: seq<T>, records: seq<T>,
                                  left: Files)
    requires c.ReadsForward()
  {
    var loaded := Loaded(c, files, current);
    && records == loaded + fetched
    && left.cache == Some((if loaded == [] then [] else CacheSeen(files, current).value) + EncodeAll(c, fetched))
    && left.token == (if current == "" then files.token else Some(current))
  }

  /** A session over a dataset of `size` items that stands at `cursor`. */
  ghost predicate Session<T(!new)>(c: Codec<T>, files: Files, current: string, item: nat -> T, cursor: nat, size: nat,
                                   records: seq<T>, left: Files)
    requires c.ReadsForward()
  {
    Leaves(c, files, current, Fetched(Loaded(c, files, current), item, cursor, size), records, left)
  }

  // ---------------------------------------------------------------- what sessions keep

  /** The cache file is absent or holds whole records only. */
  ghost predicate Clean<T(!new)>(c: Codec<T>, files: Files) {
    files.cache.Some? ==> exists rs: seq<T> :: files.cache.value == EncodeAll(c, rs)
  }

  /** After construction the file is the encoding of the records in memory, exactly when the file
      that was kept held nothing after its last readable record. */
  lemma FileAgreesExactly<T(!new)>(c: Codec<T>, files: Files, current: string, item: nat -> T, cursor: nat, size: nat,
                                   records: seq<T>, left: Files)
    requires c.Lawful() && Session(c, files, current, item, cursor, size, records, left)
    ensures var loaded := Loaded(c, files, current);
            left.cache == Some(EncodeAll(c, records))
            <==> loaded == [] || CacheSeen(files, current) == Some(EncodeAll(c, loaded))
  {
    var loaded := Loaded(c, files, current);
    var fetched := Fetched(loaded, item, cursor, size);
    EncodeAllConcat(c, loaded, fetched);
    if loaded != [] {
      SamePrefix(CacheSeen(files, current).value, EncodeAll(c, loaded), EncodeAll(c, fetched));
    } else {
      assert [] + fetched == fetched;
    }
  }

  lemma SamePrefix(a: seq<byte>, b: seq<byte>, tail: seq<byte>)
    ensures a + tail == b + tail <==> a == b
  {
    if a + tail == b + tail {
      assert |a| == |b|;
      assert a == (a + tail)[..|a|];
      assert b == (b + tail)[..|a|];
    }
  }

  /** From a clean file a session leaves a clean one that encodes its records. */
  lemma CleanStaysClean<T(!new)>(c: Codec<T>, files: Files, current: string, item: nat -> T, cursor: nat, size: nat,
                                 records: seq<T>, left: Files)
    requires c.Lawful() && Clean(c, files) && Session(c, files, current, item, cursor, size, records, left)
    ensures Clean(c, left) && left.cache == Some(EncodeAll(c, records))
  {
    if CacheSeen(files, current).Some? {
      var rs :| files.cache.value == EncodeAll(c, rs);
      ReadAllOfEncoded(c, rs);
    }
    FileAgreesExactly(c, files, current, item, cursor, size, records, left);
  }

  /** One session: the token and the dataset it is given. */
  datatype Visit<T> = Visit(current: string, item: nat -> T, cursor: nat, size: nat)

  ghost function RecordsOf<T(!new)>(c: Codec<T>, files: Files, v: Visit<T>): seq<T>
    requires c.ReadsForward()
  {
    Loaded(c, files, v.current) + Fetched(Loaded(c, files, v.current), v.item, v.cursor, v.size)
  }

  ghost function FilesLeft<T(!new)>(c: Codec<T>, files: Files, v: Visit<T>): Files
    requires c.ReadsForward()
  {
    var loaded := Loaded(c, files, v.current);
    Files(Some((if loaded == [] then [] else CacheSeen(files, v.current).value)
               + EncodeAll(c, Fetched(loaded, v.item, v.cursor, v.size))),
          if v.current == "" then files.token else Some(v.current))
  }

  ghost function FilesAfter<T(!new)>(c: Codec<T>, files: Files, visits: seq<Visit<T>>): Files
    requires c.ReadsForward()
    decreases |visits|
  {
    if visits == [] then files else FilesLeft(c, FilesAfter(c, files, visits[..|visits| - 1]), visits[|visits| - 1])
  }

  /** After session k the file is the encoding of the records session k holds. */
  ghost predicate AgreesAfter<T(!new)>(c: Codec<T>, files: Files, visits: seq<Visit<T>>, k: nat)
    requires c.ReadsForward() && k < |visits|
  {
    FilesAfter(c, files, visits[..k + 1]).cache == Some(EncodeAll(c,
                                                                  RecordsOf(c, FilesAfter(c, files, visits[..k]),
                                                                            visits[k])))
  }

  /** Over any sequence of sessions, with whatever tokens and datasets, that starts without a
      cache file or with one of whole records, the file after each session is the encoding of
      that session's records. */
  lemma {:induction false} EverySessionAgrees<T(!new)>(c: Codec<T>, files: Files, visits: seq<Visit<T>>)
    requires c.Lawful() && Clean(c, files)
    ensures Clean(c, FilesAfter(c, files, visits))
    ensures forall k | 0 <= k < |visits| :: AgreesAfter(c, files, visits, k)
    decreases |visits|
  {
    hide Clean, FilesLeft, AgreesAfter;
    if visits != [] {
      var n := |visits| - 1;
      EverySessionAgrees(c, files, visits[..n]);
      VisitAgrees(c, FilesAfter(c, files, visits[..n]), visits[n]);
      LastVisitAgrees(c, files, visits);
      forall k | 0 <= k < n ensures AgreesAfter(c, files, visits, k) {
        EarlierVisit(c, files, visits, k);
      }
    }
  }

  lemma LastVisitAgrees<T(!new)>(c: Codec<T>, files: Files, visits: seq<Visit<T>>)
    requires c.Lawful() && visits != [] && Clean(c, FilesAfter(c, files, visits[..|visits| - 1]))
    ensures AgreesAfter(c, files, visits, |visits| - 1)
  {
    hide Clean, FilesLeft, RecordsOf;
    var n := |visits| - 1;
    VisitAgrees(c, FilesAfter(c, files, visits[..n]), visits[n]);
    assert visits[..n + 1] == visits;
  }

  lemma EarlierVisit<T(!new)>(c: Codec<T>, files: Files, visits: seq<Visit<T>>, k: nat)
    requires c.ReadsForward() && k + 1 < |visits|
    ensures AgreesAfter(c, files, visits, k) <==> AgreesAfter(c, files, visits[..|visits| - 1], k)
  {
    hide FilesAfter, RecordsOf;
    var front := visits[..|visits| - 1];
    assert front[..k + 1] == visits[..k + 1] && front[..k] == visits[..k] && front[k] == visits[k];
  }

  lemma VisitAgrees<T(!new)>(c: Codec<T>, files: Files, v: Visit<T>)
    requires c.Lawful() && Clean(c, files)
    ensures Clean(c, FilesLeft(c, files, v))
    ensures FilesLeft(c, files, v).cache == Some(EncodeAll(c, RecordsOf(c, files, v)))
  {
    CleanStaysClean(c, files, v.current, v.item, v.cursor, v.size, RecordsOf(c, files, v), FilesLeft(c, files, v));
  }

  /** A later session of the same file: with the token unchanged (or none) it reloads exactly the
      records of the earlier one and adds what its own base yields next. */
  lemma NextSessionReloads<T(!new)>(c: Codec<T>, files: Files, token1: string, item1: nat -> T, cursor1: nat,
                                    size1: nat, records1: seq<T>, left1: Files, token2: string, item2: nat -> T,
                                    cursor2: nat, size2: nat, records2: seq<T>, left2: Files)
    requires c.Lawful() && Clean(c, files)
    requires Session(c, files, token1, item1, cursor1, size1, records1, left1)
    requires Session(c, left1, token2, item2, cursor2, size2, records2, left2)
    ensures Keeps(left1, token2) ==> records2 == records1 + Fetched(records1, item2, cursor2, size2)
    ensures !Keeps(left1, token2) ==> records2 == Items(item2, cursor2, size2)
  {
    hide ReadAll, EncodeAll, Clean, TokenRead, Codec.Lawful;
    CleanStaysClean(c, files, token1, item1, cursor1, size1, records1, left1);
    ReadAllOfEncoded(c, records1);
    if !Keeps(left1, token2) {
      assert [] + Fetched([], item2, cursor2, size2) == Items(item2, cursor2, size2);
    }
  }

  /** Which tokens keep a file: a non-empty token keeps it exactly when it is the first line of the
      stored one. */
  lemma TokenKeepsExactly(files: Files, stored: string, token: string)
    requires token != "" && files.token == Some(stored)
    ensures Keeps(files, token) <==> FirstLine(stored) == token
  {}

  /** Every change from a token of a single line discards the file. */
  lemma ChangedTokenDiscards(files: Files, stored: string, token: string)
    requires token != "" && files.token == Some(stored) && '\n' !in stored && token != stored
    ensures !Keeps(files, token) && CacheSeen(files, token) == None
  {
    FirstLineIsAllExactly(stored);
    TokenKeepsExactly(files, stored, token);
  }

  /** A changed token keeps the file exactly when the stored one had more lines after it. */
  lemma ChangedTokenKeepsExactly(files: Files, stored: string, token: string)
    requires token != "" && files.token == Some(stored) && token != stored
    ensures Keeps(files, token) <==> '\n' !in token && token + "\n" <= stored
  {
    hide Keeps;
    TokenKeepsExactly(files, stored, token);
    FirstLineExactly(stored, token);
  }

  lemma {:induction false} FirstLineExactly(s: string, line: string)
    ensures FirstLine(s) == line <==> '\n' !in line && (line == s || line + "\n" <= s)
    decreases |s|
  {
    if s == "" || s[0] == '\n' {
      assert line == "" ==> line + "\n" == "\n";
      assert s != "" ==> s == "\n" + s[1..];
      assert line + "\n" <= s && line != "" ==> line[0] == '\n';
    } else if line != "" {
      FirstLineExactly(s[1..], line[1..]);
      assert s == [s[0]] + s[1..] && line == [line[0]] + line[1..];
      assert line + "\n" == [line[0]] + (line[1..] + "\n");
      assert line + "\n" <= s <==> line[0] == s[0] && line[1..] + "\n" <= s[1..];
    } else {
      assert FirstLine(s) != "";
      assert line + "\n" == "\n";
    }
  }

  /** Then stale records are served: over datasets of one size, the second session holds the
      first one's items though its token is another. */
  lemma ChangedTokenServesStale<T(!new)>(c: Codec<T>, files: Files, item1: nat -> T, item2: nat -> T, cursor2: nat,
                                         size: nat)
    requires c.Lawful() && files.cache == None
    ensures var left1 := FilesLeft(c, files, Visit("a\nb", item1, 0, size));
            RecordsOf(c, left1, Visit("a", item2, cursor2, size)) == Items(item1, 0, size)
  {
    var stored := "a\nb";
    var first, second := Visit(stored, item1, 0, size), Visit("a", item2, cursor2, size);
    var left1 := FilesLeft(c, files, first);
    var records1, records2 := RecordsOf(c, files, first), RecordsOf(c, left1, second);
    assert stored[1..][0] == '\n';
    assert FirstLine(stored[1..]) == "";
    assert FirstLine(stored) == "a";
    TokenKeepsExactly(left1, stored, "a");
    NextSessionReloads(c, files, stored, item1, 0, size, records1, left1, "a", item2, cursor2, size, records2,
                       FilesLeft(c, left1, second));
    assert [] + Fetched([], item1, 0, size) == Items(item1, 0, size);
  }

  /** A non-empty token that is used again keeps the file exactly when it is a single line. */
  lemma SameTokenKeepsExactly(files: Files, token: string)
    requires token != "" && files.token == Some(token)
    ensures Keeps(files, token) <==> '\n' !in token
  {
    FirstLineIsAllExactly(token);
  }

  lemma {:induction false} FirstLineIsAllExactly(s: string)
    ensures FirstLine(s) == s <==> '\n' !in s
    ensures |FirstLine(s)| <= |s|
    decreases |s|
  {
    if s != "" {
      FirstLineIsAllExactly(s[1..]);
      assert s == [s[0]] + s[1..];
    }
  }

  // ---------------------------------------------------------------- growth

  /** A cache that holds the first `start` items and grows to `size` from a base at `cursor`
      holds the dataset in its own order. */
  predicate InOrder<T(!new,==)>(item: nat -> T, start: nat, cursor: nat, size: nat) {
    Items(item, 0, start) + Fetched(Items(item, 0, start), item, cursor, size) == Items(item, 0, size)
  }

  /** The base yields at its j-th step from `cursor` what the dataset has j places after `start`. */
  predicate Due<T(!new,==)>(item: nat -> T, start: nat, cursor: nat, j: nat) {
    item(cursor + j) == item(start + j)
  }

  /** For every base: growth is in order exactly when the base yields what the dataset has there. */
  lemma InOrderExactly<T(!new)>(item: nat -> T, start: nat, cursor: nat, size: nat)
    requires start < size
    ensures InOrder(item, start, cursor, size)
       <==> forall j | 0 <= j < size - start :: Due(item, start, cursor, j)
  {
    var grown, whole := Items(item, 0, start) + Items(item, cursor, size - start), Items(item, 0, size);
    if forall j | 0 <= j < size - start :: Due(item, start, cursor, j) {
      forall k | 0 <= k < size ensures grown[k] == whole[k] {
        assert k >= start ==> Due(item, start, cursor, k - start);
      }
    }
    if grown == whole {
      forall j | 0 <= j < size - start ensures Due(item, start, cursor, j) {
        assert grown[start + j] == whole[start + j];
      }
    }
  }

  /** A base that stands where the cache ends keeps the dataset's order, whatever its items. */
  lemma GrowthInOrder<T(!new)>(item: nat -> T, start: nat, size: nat)
    requires start < size
    ensures InOrder(item, start, start, size)
  {
    InOrderExactly(item, start, start, size);
  }

  /** Growth is in order exactly when the base stands where the cache ends, unless the item the
      base stands at happens to repeat the one that is due. */
  lemma GrowthInOrderExactly<T(!new)>(item: nat -> T, start: nat, cursor: nat, size: nat)
    requires start < size
    requires cursor != start ==> item(cursor) != item(start)
    ensures InOrder(item, start, cursor, size) <==> cursor == start
  {
    InOrderExactly(item, start, cursor, size);
    if InOrder(item, start, cursor, size) {
      assert Due(item, start, cursor, 0);
    }
  }

  /** The items of the dataset proper are distinct. */
  predicate DistinctBelow<T(!new,==)>(item: nat -> T, size: nat) {
    forall i, j | 0 <= i < j < size :: item(i) != item(j)
  }

  /** After its last item the base yields the same blank for ever. */
  ghost predicate EndsInBlanks<T(!new)>(item: nat -> T, size: nat, blank: T) {
    (forall i: nat | i >= size :: item(i) == blank) && forall i | 0 <= i < size :: item(i) != blank
  }

  /** After its last item the base starts over. */
  ghost predicate WrapsAround<T(!new)>(item: nat -> T, size: nat) {
    size > 0 && forall i: nat :: item(i) == item(i % size)
  }

  /** A finite dataset whose base ends in blanks: in order exactly when the base stands where the
      cache ends, wherever else it may stand. */
  lemma BlankEndedGrowth<T(!new)>(item: nat -> T, start: nat, cursor: nat, size: nat, blank: T)
    requires start < size && DistinctBelow(item, size) && EndsInBlanks(item, size, blank)
    ensures InOrder(item, start, cursor, size) <==> cursor == start
  {
    GrowthInOrderExactly(item, start, cursor, size);
  }

  /** A finite dataset whose base wraps around: the same, up to whole rounds of the base. */
  lemma WrappingGrowth<T(!new)>(item: nat -> T, start: nat, cursor: nat, size: nat)
    requires start < size && DistinctBelow(item, size) && WrapsAround(item, size)
    ensures InOrder(item, start, cursor, size) <==> cursor % size == start
  {
    hide InOrder, DistinctBelow;
    InOrderExactly(item, start, cursor, size);
    if cursor % size == start {
      forall j | 0 <= j < size - start ensures Due(item, start, cursor, j) {
        SameRound(cursor, j, size);
        assert item(cursor + j) == item((cursor + j) % size);
      }
    } else {
      WrongPlace(item, start, cursor, size);
      assert !Due(item, start, cursor, 0);
    }
  }

  lemma WrongPlace<T(!new)>(item: nat -> T, start: nat, cursor: nat, size: nat)
    requires start < size && DistinctBelow(item, size) && WrapsAround(item, size) && cursor % size != start
    ensures item(cursor) != item(start)
  {
    var place := cursor % size;
    assert item(cursor) == item(place);
  }

  lemma SameRound(cursor: nat, j: nat, size: nat)
    requires size > 0 && cursor % size + j < size
    ensures (cursor + j) % size == cursor % size + j
  {
    assert cursor == cursor / size * size + cursor % size;
    Bits.QuotientIs(cursor + j, cursor / size, cursor % size + j, size);
  }

  /** Two sessions over a dataset of changing size, the first from scratch, the second with the
      file kept: the second holds the dataset's first `size2` items exactly when the size is the
      same or growth is in order.  A dataset that shrank keeps its stale tail. */
  lemma GrownDataset<T(!new)>(c: Codec<T>, token1: string, size1: nat, token2: string, cursor: nat, size2: nat,
                              files: Files, item: nat -> T, records1: seq<T>, left1: Files, records2: seq<T>,
                              left2: Files)
    requires c.Lawful() && files.cache == None && Keeps(left1, token2)
    requires Session(c, files, token1, item, 0, size1, records1, left1)
    requires Session(c, left1, token2, item, cursor, size2, records2, left2)
    ensures records2 == Items(item, 0, size2) <==> size1 == size2 || (size1 < size2 && InOrder(item, size1, cursor,
                                                                                               size2))
    ensures size1 >= size2 ==> records2 == Items(item, 0, size1)
  {
    NextSessionReloads(c, files, token1, item, 0, size1, records1, left1, token2, item, cursor, size2, records2, left2);
    assert [] + Fetched([], item, 0, size1) == Items(item, 0, size1);
  }

  // ---------------------------------------------------------------- an unreadable tail

  /** A codec of bytes: the mark 1, then the byte. */
  function MarkedCodec(): Codec<byte> {
    Codec((t: byte) => [1, t], (bs: seq<byte>) => if |bs| >= 2 && bs[0] == 1 then Some((bs[1], 2)) else None)
  }

  lemma MarkedIsLawful()
    ensures MarkedCodec().Lawful()
  {
    var c := MarkedCodec();
    forall t: byte, rest: seq<byte> ensures c.dec(c.enc(t) + rest) == Some((t, |c.enc(t)|)) {
      assert (c.enc(t) + rest)[0] == 1 && (c.enc(t) + rest)[1] == t;
    }
  }

  lemma ReadAllStep<T(!new)>(c: Codec<T>, bs: seq<byte>, t: T, n: nat)
    requires c.ReadsForward() && c.dec(bs) == Some((t, n))
    ensures n <= |bs| && ReadAll(c, bs) == [t] + ReadAll(c, bs[n..])
  {}

  /** The failing side of `FileAgreesExactly` does occur, and growth then does harm: a kept file
      with half a record at its end is appended to, and the next session reads back something
      that no session held. */
  lemma TornTailCorrupts(item: nat -> byte)
    requires item(0) == 9
    ensures MarkedCodec().Lawful()
    ensures var c, torn := MarkedCodec(), Files(Some([1, 7, 1]), None);
            var left := Files(Some([1, 7, 1, 1, 9]), None);
            && Session(c, torn, "", item, 0, 2, [7, 9], left)
            && left.cache != Some(EncodeAll(c, [7, 9]))
            && Loaded(c, left, "") == [7, 1]
  {
    MarkedIsLawful();
    hide MarkedCodec, ReadAll, EncodeAll;
    TornRead();
    MarkedEncoding(7, 9);
    assert Items(item, 0, 1) == [9] && [7] + [9] == [7, 9];
    assert [1, 7, 1] + [1, 9] == [1, 7, 1, 1, 9];
  }

  lemma MarkedEncoding(a: byte, b: byte)
    ensures EncodeAll(MarkedCodec(), [b]) == [1, b]
    ensures EncodeAll(MarkedCodec(), [a, b]) == [1, a, 1, b]
  {
    var c := MarkedCodec();
    assert [b][..0] == [] && [a, b][..1] == [a] && [a][..0] == [];
    assert EncodeAll(c, [a]) == [1, a];
  }

  lemma TornRead()
    ensures MarkedCodec().ReadsForward()
    ensures ReadAll(MarkedCodec(), [1, 7, 1]) == [7]
    ensures ReadAll(MarkedCodec(), [1, 7, 1, 1, 9]) == [7, 1]
  {
    MarkedIsLawful();
    var c := MarkedCodec();
    ReadAllStep(c, [1, 7, 1], 7, 2);
    assert [1, 7, 1][2..] == [1];
    ReadAllStep(c, [1, 7, 1, 1, 9], 7, 2);
    assert [1, 7, 1, 1, 9][2..] == [1, 1, 9];
    ReadAllStep(c, [1, 1, 9], 1, 2);
    assert [1, 1, 9][2..] == [9];
  }

  // ---------------------------------------------------------------- the class

  class Disk {
    var files: Files

    constructor (files: Files)
      ensures this.files == files
    {
      this.files := files;
    }
  }

  class DiskCacheProducer<T(!new)> {
    var records: seq<T>
    var index: nat
    /** Calls of `Next` answered so far. */
    ghost var served: nat

    ghost predicate Valid()
      reads this
    {
      && index <= |records|
      && (records != [] ==> served % |records| == index % |records|)
    }

    /** A null base counts as size 0.  Opening and writing the files is taken to succeed. */
    constructor (c: Codec<T>, base: Producer?<T>, disk: Disk, current: string)
      requires c.ReadsForward()
      modifies disk, base
      ensures Valid() && served == 0
      ensures base != null ==>
                Session(c, old(disk.files), current, base.item, old(base.cursor), base.size, records, disk.files)
      ensures base == null ==> Leaves(c, old(disk.files), current, [], records, disk.files)
      ensures disk.files.token == if current == "" then old(disk.files.token) else Some(current)
    {
      records, index, served := [], 0, 0;
      new;
      ghost var files0 := disk.files;
      if current != "" {
        if TokenRead(disk.files) != current {
          disk.files := Files(None, None);
        }
      }
      ghost var seen := disk.files;
      var loaded := LoadCache(c, disk);
      ghost var found := records;
      ghost var fetched: seq<T> := [];
      var size := if base == null then 0 else base.size;
      if !loaded {
        disk.files := disk.files.(cache := Some([]));
        fetched := Fetch(c, base, disk, 0, size);
      } else if |records| < size {
        fetched := Fetch(c, base, disk, |records|, size);
      }
      if current != "" {
        disk.files := disk.files.(token := Some(current));
      }
      Conclude(c, files0, seen, current, found, fetched, records, disk.files);
    }

    static lemma Conclude(c: Codec<T>, files: Files, seen: Files, current: string, found: seq<T>, fetched: seq<T>,
                          records: seq<T>, left: Files)
      requires c.ReadsForward()
      requires seen == if Keeps(files, current) then files else Files(None, None)
      requires found == match seen.cache case None => [] case Some(bs) => ReadAll(c, bs)
      requires records == found + fetched || (found == [] && records == fetched) || (fetched == [] && records == found)
      requires found == [] ==> left.cache == Some([] + EncodeAll(c, fetched))
      requires found != [] && fetched == [] ==>
                 left.cache == seen.cache || left.cache == Some(seen.cache.value + EncodeAll(c, []))
      requires found != [] && fetched != [] ==> left.cache == Some(seen.cache.value + EncodeAll(c, fetched))
      requires left.token == if current == "" then seen.token else Some(current)
      ensures Loaded(c, files, current) == found && Leaves(c, files, current, fetched, records, left)
    {
      assert found + [] == found && [] + fetched == fetched;
      if found != [] {
        assert seen.cache.value + [] == seen.cache.value;
      }
    }

    /** load_cache: read records until the end of the file or the first unreadable one. */
    method LoadCache(c: Codec<T>, disk: Disk) returns (ok: bool)
      requires c.ReadsForward()
      modifies this
      ensures records == (match disk.files.cache case None => old(records) case Some(bs) => ReadAll(c, bs))
      ensures ok <==> disk.files.cache.Some? && records != []
      ensures served == old(served) && index == (if disk.files.cache.Some? then 0 else old(index))
    {
      if disk.files.cache.None? {
        return false;
      }
      var bs := disk.files.cache.value;
      ghost var all := ReadAll(c, bs);
      records := [];
      assert [] + all == all;
      while bs != []
        invariant all == records + ReadAll(c, bs)
        invariant served == old(served)
        decreases |bs|
      {
        var r := c.dec(bs);
        if r.None? {
          break;
        }
        ghost var rest := ReadAll(c, bs[r.value.1..]);
        assert records + ([r.value.0] + rest) == records + [r.value.0] + rest;
        records := records + [r.value.0];
        bs := bs[r.value.1..];
      }
      assert ReadAll(c, bs) == [];
      index := 0;
      ok := records != [];
    }

    /** The loops of populate_cache and append_cache: items `start` up to `count` are taken from
        the base, kept in memory and written at the end of the file. */
    method Fetch(c: Codec<T>, base: Producer?<T>, disk: Disk, start: nat, count: nat) returns (ghost items: seq<T>)
      requires disk.files.cache.Some? && start <= count && (base == null ==> start == count)
      modifies this`records, disk, base
      ensures items == if base == null then [] else Items(base.item, old(base.cursor), count - start)
      ensures records == old(records) + items
      ensures disk.files == old(disk.files).(cache := Some(old(disk.files.cache).value + EncodeAll(c, items)))
    {
      ghost var before := disk.files.cache.value;
      items := [];
      assert records + items == records && before + EncodeAll(c, items) == before;
      for i := start to count
        invariant base != null ==> base.cursor == old(base.cursor) + (i - start)
        invariant items == if base == null then [] else Items(base.item, old(base.cursor), i - start)
        invariant records == old(records) + items
        invariant disk.files == old(disk.files).(cache := Some(before + EncodeAll(c, items)))
      {
        var t := base.Next();
        records := records + [t];
        var written := disk.files.cache.value + c.enc(t);
        assert (items + [t])[..|items|] == items;
        assert written == before + EncodeAll(c, items + [t]);
        disk.files := disk.files.(cache := Some(written));
        items := items + [t];
      }
    }

    /** The k-th call returns record k modulo the number of records, and an empty tensor (None)
        when there are none. */
    method Next() returns (t: Option<T>)
      requires Valid()
      modifies this`index, this`served
      ensures Valid() && records == old(records)
      ensures records == [] ==> t == None
      ensures records != [] ==> t == Some(records[old(served) % |records|]) && served == old(served) + 1
    {
      if records == [] {
        return None;
      }
      if index >= |records| {
        index := 0;
      }
      NextModulo(served, index, |records|);
      t := Some(records[index]);
      index := index + 1;
      served := served + 1;
    }

    function Size(): nat
      reads this
    {
      |records|
    }
  }

  lemma NextModulo(a: nat, b: nat, m: nat)
    requires m > 0 && b < m && (a % m == b || (b == 0 && a % m == 0))
    ensures a % m == b && (a + 1) % m == (b + 1) % m
  {
    var q := a / m;
    assert a == q * m + b;
    if b + 1 == m {
      assert a + 1 == (q + 1) * m;
      Bits.QuotientIs(a + 1, q + 1, 0, m);
      Bits.QuotientIs(b + 1, 1, 0, m);
    } else {
      Bits.QuotientIs(a + 1, q, b + 1, m);
      Bits.QuotientIs(b + 1, 0, b + 1, m);
    }
  }
}
