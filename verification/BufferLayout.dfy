/**
  Where requests read and write (layout_client_buffer, layout_server_buffer and the address
  arithmetic of post_one_req, post_one_get and the mixed mode in src/kv_bench.cpp).
 */
module BufferLayouts {
  import opened Bits
  import opened RequestBooks
  import opened PoolSizing

  const PAGE_SIZE: nat := 4096
  const CLIENT_WINDOW: nat := 4
  const SERVER_WINDOW: nat := 4

  datatype Op = Write | Get | Mixed

  datatype Args = Args(op: Op, threads: nat, concurrency: int, sendSize: nat, valueSize: nat)

  /** Requests a thread can have in flight, as the layout counts them. */
  function Window(a: Args): (w: nat)
    ensures w >= 1
  {
    if a.op != Mixed && a.concurrency > 0 then a.concurrency else 1
  }

  /** `x` rounded up to whole pages. */
  function RoundUp(x: nat): nat {
    (x + (PAGE_SIZE - 1)) / PAGE_SIZE * PAGE_SIZE
  }

  /** The layout counts every slot that a worker uses. */
  lemma WindowCovers(a: Args)
    requires a.op != Mixed
    ensures SlotCount(a.concurrency) <= Window(a)
  {
  }

  lemma RoundUpLeast(x: nat)
    ensures RoundUp(x) % PAGE_SIZE == 0 && x <= RoundUp(x) < x + PAGE_SIZE
  {
  }

  // ---------------------------------------------------------------- cells

  /** Where cell `c` of `size` bytes ends. */
  function CellEnd(c: nat, size: nat): nat {
    c * size + size
  }

  ghost predicate HasCells(len: nat, cells: nat, size: nat) {
    forall c: nat :: c < cells ==> CellEnd(c, size) <= len
  }

  /** `len` is the least length with room for that many cells. */
  ghost predicate LeastFor(len: nat, cells: nat, size: nat) {
    HasCells(len, cells, size) && forall m: nat :: HasCells(m, cells, size) ==> len <= m
  }

  lemma ProductIsLeast(cells: nat, size: nat)
    ensures LeastFor(cells * size, cells, size)
  {
    forall c: nat | c < cells ensures CellEnd(c, size) <= cells * size {
      MulMono(c + 1, cells, size);
      assert (c + 1) * size == c * size + size;
    }
    if cells > 0 {
      assert cells * size == (cells - 1) * size + size == CellEnd(cells - 1, size);
    }
  }

  /** The requests a thread has in flight, at least one. */
  function AtLeastOne(concurrency: int): nat {
    if concurrency >= 1 then concurrency else 1
  }

  /** The cells the client's data is made of: a block for each request in flight of each thread for writing, ten
      values for reading, and four values for each thread in the mixed mode. */
  ghost predicate ClientFits(a: Args, len: nat) {
    match a.op
    case Write => LeastFor(len, a.threads * AtLeastOne(a.concurrency), a.sendSize)
    case Get => LeastFor(len, a.threads * AtLeastOne(a.concurrency) * SENDS, a.valueSize)
    case Mixed => LeastFor(len, a.threads * CLIENT_WINDOW, a.valueSize)
  }

  lemma ClientLenFits(a: Args)
    ensures ClientFits(a, ClientLen(a))
  {
    hide LeastFor;
    var n := a.threads * AtLeastOne(a.concurrency);
    match a.op
    case Write => ProductIsLeast(n, a.sendSize);
    case Get =>
      ProductIsLeast(n * SENDS, a.valueSize);
      Swapped(n, SENDS, a.valueSize);
    case Mixed => ProductIsLeast(a.threads * CLIENT_WINDOW, a.valueSize);
  }

  /** The server's data has ten blocks for each of ten requests, whatever the concurrency, or four values. */
  ghost predicate ServerFits(a: Args, len: nat) {
    match a.op
    case Write => LeastFor(len, SENDS * MAX_CONCURRENCY, a.sendSize)
    case Get => LeastFor(len, SENDS * MAX_CONCURRENCY, a.valueSize)
    case Mixed => LeastFor(len, SERVER_WINDOW, a.valueSize)
  }

  lemma ServerLenFits(a: Args)
    ensures ServerFits(a, ServerLen(a))
  {
    hide LeastFor;
    match a.op
    case Write => ProductIsLeast(SENDS * MAX_CONCURRENCY, a.sendSize);
    case Get => ProductIsLeast(SENDS * MAX_CONCURRENCY, a.valueSize);
    case Mixed => ProductIsLeast(SERVER_WINDOW, a.valueSize);
  }

  class Context {
    const args: Args
    var dataLen: nat
    var bufLen: nat

    constructor (args: Args)
      ensures this.args == args
    {
      this.args := args;
      dataLen, bufLen := 0, 0;
    }

    method LayoutClientBuffer()
      modifies this
      ensures ClientFits(args, dataLen) && dataLen == ClientLen(args)
      ensures dataLen <= bufLen < dataLen + PAGE_SIZE && bufLen % PAGE_SIZE == 0
    {
      var window := Window(args);
      match args.op {
        case Write => dataLen := args.threads * window * args.sendSize;
        case Get => dataLen := args.threads * window * args.valueSize * SENDS;
        case Mixed => dataLen := args.threads * CLIENT_WINDOW * args.valueSize;
      }
      bufLen := RoundUp(dataLen);
      RoundUpLeast(dataLen);
      ClientLenFits(args);
    }

    method LayoutServerBuffer()
      modifies this
      ensures ServerFits(args, dataLen) && dataLen == ServerLen(args)
      ensures dataLen <= bufLen < dataLen + PAGE_SIZE && bufLen % PAGE_SIZE == 0
    {
      match args.op {
        case Write => dataLen := SENDS * MAX_CONCURRENCY * args.sendSize;
        case Get => dataLen := SENDS * MAX_CONCURRENCY * args.valueSize;
        case Mixed => dataLen := SERVER_WINDOW * args.valueSize;
      }
      bufLen := RoundUp(dataLen);
      RoundUpLeast(dataLen);
      ServerLenFits(args);
    }
  }

  function ClientLen(a: Args): nat {
    match a.op
    case Write => a.threads * Window(a) * a.sendSize
    case Get => a.threads * Window(a) * a.valueSize * SENDS
    case Mixed => a.threads * CLIENT_WINDOW * a.valueSize
  }

  function ServerLen(a: Args): nat {
    match a.op
    case Write => SENDS * MAX_CONCURRENCY * a.sendSize
    case Get => SENDS * MAX_CONCURRENCY * a.valueSize
    case Mixed => SERVER_WINDOW * a.valueSize
  }

  // ---------------------------------------------------------------- addresses

  /** A work request: worker, slot, send and half. */
  datatype Place = Place(worker: nat, slot: nat, send: nat, half: nat)

  /** A place that a worker uses. */
  predicate InPlace(a: Args, p: Place) {
    p.worker < a.threads && p.slot < SlotCount(a.concurrency) && p.send < SENDS && p.half < 2
  }

  /** Offset of a READ's target in the client's data. */
  function GetLocal(a: Args, p: Place): nat {
    var wrSize, reqBytes := a.valueSize / 2, a.valueSize * SENDS;
    var perThread := (if a.concurrency >= 1 then a.concurrency else 1) * reqBytes;
    p.worker * perThread + p.slot * reqBytes + p.send * a.valueSize + p.half * wrSize
  }

  /** Offset of a READ's source in the server's data; the same for all workers. */
  function GetRemote(a: Args, p: Place): nat {
    p.slot * (a.valueSize * SENDS) + p.send * a.valueSize + p.half * (a.valueSize / 2)
  }

  /** Offset of a WRITE's target in the server's data; the same for all workers. */
  function WriteRemote(a: Args, p: Place): nat {
    var wrSize, reqBytes := a.sendSize / 2, a.sendSize * SENDS;
    p.slot * reqBytes + p.send * a.sendSize + p.half * wrSize
  }

  /** Offset of a WRITE's source in the client's data. */
  function WriteLocal(a: Args, p: Place): nat {
    p.slot * a.sendSize + p.half * (a.sendSize / 2)
  }

  predicate Disjoint(x: nat, y: nat, len: nat) {
    x + len <= y || y + len <= x
  }

  /** Cells of `size` bytes, two halves each. */
  lemma HalvesApart(size: nat, c: nat, h: nat, d: nat, k: nat)
    requires h < 2 && k < 2 && (c != d || h != k)
    ensures Disjoint(c * size + h * (size / 2), d * size + k * (size / 2), size / 2)
  {
    if c < d {
      MulMono(c + 1, d, size);
      assert (c + 1) * size == c * size + size;
    } else if d < c {
      MulMono(d + 1, c, size);
      assert (d + 1) * size == d * size + size;
    } else {
      assert h * (size / 2) == if h == 0 then 0 else size / 2;
      assert k * (size / 2) == if k == 0 then 0 else size / 2;
    }
  }

  lemma HalfInside(size: nat, c: nat, h: nat, cells: nat)
    requires h < 2 && c < cells
    ensures c * size + h * (size / 2) + size / 2 <= cells * size
  {
    MulMono(c + 1, cells, size);
    assert (c + 1) * size == c * size + size;
  }

  /** The cell of a READ among all cells of all workers. */
  function GetCell(a: Args, p: Place): nat {
    (p.worker * Window(a) + p.slot) * SENDS + p.send
  }

  lemma GetLocalIs(a: Args, p: Place)
    requires a.op == Get
    ensures GetLocal(a, p) == GetCell(a, p) * a.valueSize + p.half * (a.valueSize / 2)
  {
    var w, v := Window(a), a.valueSize;
    assert p.worker * (w * (v * SENDS)) == p.worker * w * SENDS * v;
    assert p.slot * (v * SENDS) == p.slot * SENDS * v;
    assert GetCell(a, p) * v == p.worker * w * SENDS * v + p.slot * SENDS * v + p.send * v;
  }

  lemma DigitsApart(a: nat, b: nat, c: nat, d: nat, base: nat)
    requires b < base && d < base && a * base + b == c * base + d
    ensures a == c && b == d
  {
    QuotientUnique(a * base + b, base, a);
    QuotientUnique(a * base + b, base, c);
  }

  lemma GetCellsApart(a: Args, p: Place, q: Place)
    requires a.op == Get && InPlace(a, p) && InPlace(a, q) && GetCell(a, p) == GetCell(a, q)
    ensures p.worker == q.worker && p.slot == q.slot && p.send == q.send
  {
    WindowCovers(a);
    DigitsApart(p.worker * Window(a) + p.slot, p.send, q.worker * Window(a) + q.slot, q.send, SENDS);
    DigitsApart(p.worker, p.slot, q.worker, q.slot, Window(a));
  }

  /** No two READs of any workers share a byte, and all stay inside the client's data. */
  lemma GetTargetsApart(a: Args, p: Place, q: Place)
    requires a.op == Get && InPlace(a, p) && InPlace(a, q) && p != q
    ensures Disjoint(GetLocal(a, p), GetLocal(a, q), a.valueSize / 2)
  {
    GetLocalIs(a, p);
    GetLocalIs(a, q);
    if GetCell(a, p) == GetCell(a, q) { GetCellsApart(a, p, q); }
    HalvesApart(a.valueSize, GetCell(a, p), p.half, GetCell(a, q), q.half);
  }

  lemma GetTargetsInside(a: Args, p: Place)
    requires a.op == Get && InPlace(a, p)
    ensures GetLocal(a, p) + a.valueSize / 2 <= ClientLen(a)
  {
    GetLocalIs(a, p);
    WindowCovers(a);
    var w := Window(a);
    CellInside(p.worker, a.threads, w, p.slot, p.send);
    HalfInside(a.valueSize, GetCell(a, p), p.half, a.threads * w * SENDS);
    Swapped(a.threads * w, SENDS, a.valueSize);
  }

  lemma CellInside(worker: nat, threads: nat, w: nat, slot: nat, send: nat)
    requires worker < threads && slot < w && send < SENDS
    ensures (worker * w + slot) * SENDS + send < threads * w * SENDS
  {
    MulMono(worker + 1, threads, w);
    assert (worker + 1) * w == worker * w + w;
    MulMono(worker * w + slot + 1, threads * w, SENDS);
  }

  lemma Swapped(x: nat, y: nat, z: nat)
    ensures x * y * z == x * z * y
  {
  }

  lemma WriteRemoteIs(a: Args, p: Place)
    ensures WriteRemote(a, p) == (p.slot * SENDS + p.send) * a.sendSize + p.half * (a.sendSize / 2)
  {
    var s := a.sendSize;
    assert p.slot * (s * SENDS) == p.slot * SENDS * s;
    assert (p.slot * SENDS + p.send) * s == p.slot * SENDS * s + p.send * s;
  }

  /** Of one worker, no two WRITEs share a byte of the server's data. */
  lemma WriteTargetsApart(a: Args, p: Place, q: Place)
    requires a.op == Write && InPlace(a, p) && InPlace(a, q) && p.worker == q.worker && p != q
    ensures Disjoint(WriteRemote(a, p), WriteRemote(a, q), a.sendSize / 2)
  {
    hide WriteRemote, Disjoint;
    WriteRemoteIs(a, p);
    WriteRemoteIs(a, q);
    HalvesApart(a.sendSize, p.slot * SENDS + p.send, p.half, q.slot * SENDS + q.send, q.half);
  }

  /** All stay inside it when both ends use the same size. */
  lemma WriteTargetsInside(a: Args, p: Place)
    requires a.op == Write && InPlace(a, p)
    ensures WriteRemote(a, p) + a.sendSize / 2 <= ServerLen(a)
  {
    WriteRemoteIs(a, p);
    HalfInside(a.sendSize, p.slot * SENDS + p.send, p.half, SENDS * MAX_CONCURRENCY);
  }

  /** The sends of a request share one source block; those of other slots and other halves do not overlap. */
  lemma WriteSourcesApart(a: Args, p: Place, q: Place)
    requires a.op == Write && InPlace(a, p) && InPlace(a, q) && (p.slot != q.slot || p.half != q.half)
    ensures Disjoint(WriteLocal(a, p), WriteLocal(a, q), a.sendSize / 2)
  {
    HalvesApart(a.sendSize, p.slot, p.half, q.slot, q.half);
  }

  /** The two halves of a send come from the two halves of the slot's source block. */
  lemma WriteSourcesInside(a: Args, p: Place)
    requires a.op == Write && InPlace(a, p)
    ensures WriteLocal(a, p) + a.sendSize / 2 <= ClientLen(a)
  {
    WindowCovers(a);
    MulMono(1, a.threads, Window(a));
    HalfInside(a.sendSize, p.slot, p.half, a.threads * Window(a));
  }

  lemma GetSourcesInside(a: Args, p: Place)
    requires a.op == Get && InPlace(a, p)
    ensures GetRemote(a, p) + a.valueSize / 2 <= ServerLen(a)
  {
    var v := a.valueSize;
    assert p.slot * (v * SENDS) == p.slot * SENDS * v;
    assert (p.slot * SENDS + p.send) * v == p.slot * SENDS * v + p.send * v;
    HalfInside(v, p.slot * SENDS + p.send, p.half, SENDS * MAX_CONCURRENCY);
  }

  // ---------------------------------------------------------------- the mixed mode

  /** The offset of a worker after some rounds: it advances by two values, round its window. */
  function MixedOff(a: Args, worker: nat, rounds: nat): nat
    requires worker < a.threads && a.valueSize > 0
  {
    var window := a.threads * CLIENT_WINDOW * a.valueSize;
    MulNat(a.threads * CLIENT_WINDOW, a.valueSize);
    MulMono(1, a.threads * CLIENT_WINDOW, a.valueSize);
    if rounds == 0 then worker * CLIENT_WINDOW * a.valueSize
    else (MixedOff(a, worker, rounds - 1) + 2 * a.valueSize) % window
  }

  /** It is that of one of the pairs of values the client's data is made of. */
  lemma {:induction false} MixedPair(a: Args, worker: nat, rounds: nat) returns (c: nat)
    requires worker < a.threads && a.valueSize > 0
    ensures MixedOff(a, worker, rounds) == c * (2 * a.valueSize) && c < 2 * a.threads
  {
    hide MixedOff;
    var n, v := 2 * a.threads, a.valueSize;
    MixedRound(a, worker, rounds);
    WindowInPairs(a.threads, v);
    if rounds == 0 {
      c := 2 * worker;
      WindowInPairs(worker, v);
    } else {
      var d := MixedPair(a, worker, rounds - 1);
      c := if d + 1 == n then 0 else d + 1;
      PairAdds(d, v);
      WrapsRound(d + 1, n, 2 * v);
    }
  }

  lemma MixedRound(a: Args, worker: nat, rounds: nat)
    requires worker < a.threads && a.valueSize > 0
    ensures rounds == 0 ==> MixedOff(a, worker, 0) == worker * CLIENT_WINDOW * a.valueSize
    ensures a.threads * CLIENT_WINDOW * a.valueSize > 0
    ensures rounds > 0 ==>
      MixedOff(a, worker, rounds)
        == (MixedOff(a, worker, rounds - 1) + 2 * a.valueSize) % (a.threads * CLIENT_WINDOW * a.valueSize)
  {
    MulMono(1, a.threads * CLIENT_WINDOW, a.valueSize);
  }

  lemma PairAdds(d: nat, v: nat)
    ensures d * (2 * v) + 2 * v == (d + 1) * (2 * v) && d * (2 * v) == 2 * d * v && d * (2 * v) + v == (2 * d + 1) * v
  {
  }

  lemma WindowInPairs(threads: nat, v: nat)
    ensures threads * CLIENT_WINDOW * v == 2 * threads * (2 * v)
  {
  }

  lemma WrapsRound(k: nat, n: nat, d: nat)
    requires 0 < k <= n && d > 0
    ensures n * d > 0 && k * d % (n * d) == (if k == n then 0 else k) * d
  {
    MulMono(1, n, d);
    if k < n {
      MulMono(k + 1, n, d);
      assert (k + 1) * d == k * d + d;
      QuotientUnique(k * d, n * d, 0);
    } else {
      QuotientUnique(n * d, n * d, 1);
    }
  }

  /** Both values of a round lie inside the client's data, and both remote values inside the server's. */
  lemma MixedInside(a: Args, worker: nat, rounds: nat)
    requires a.op == Mixed && worker < a.threads && a.valueSize > 0
    ensures var off, server := MixedOff(a, worker, rounds), ServerLen(a);
      && off + 2 * a.valueSize <= ClientLen(a)
      && server > 0 && off % server + a.valueSize <= server && (off + a.valueSize) % server + a.valueSize <= server
  {
    hide MixedOff;
    var v := a.valueSize;
    var c := MixedPair(a, worker, rounds);
    MulMono(c + 1, 2 * a.threads, 2 * v);
    PairAdds(c, v);
    WindowInPairs(a.threads, v);
    CellModFits(2 * c, v);
    CellModFits(2 * c + 1, v);
  }

  lemma CellModFits(k: nat, v: nat)
    requires v > 0
    ensures k * v % (SERVER_WINDOW * v) + v <= SERVER_WINDOW * v
  {
    var q, r := k / SERVER_WINDOW, k % SERVER_WINDOW;
    assert k == q * SERVER_WINDOW + r;
    MulMono(r + 1, SERVER_WINDOW, v);
    assert (r + 1) * v == r * v + v;
    MulNat(r, v);
    assert k * v == q * (SERVER_WINDOW * v) + r * v;
    QuotientUnique(k * v, SERVER_WINDOW * v, q);
  }
}
