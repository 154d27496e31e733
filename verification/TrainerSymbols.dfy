/** What the trainer of byte-pair pieces knows: sentences as rows of symbols, and for every
    pair of symbols met so far where it was recorded and how often it was counted. */
module TrainerSymbols {
  import opened Wrappers

  const UNK_CHAR: int := 0x2585

  /** A symbol is a character or a pair of symbols; pairs are told apart by their halves. */
  datatype Symbol = Char(c: int) | Pair(left: Symbol, right: Symbol)

  function Chars(s: Symbol): (r: seq<int>)
    ensures |r| > 0
    ensures s.Pair? ==> |r| > 1
  {
    match s
    case Char(c) => [c]
    case Pair(l, r) => Chars(l) + Chars(r)
  }

  /** A sentence position holds the symbol that begins there, none if it lies inside one. */
  type Row = seq<Option<Symbol>>

  datatype Position = Position(sid: nat, left: nat, right: nat)

  predicate Before(p: Position, q: Position) {
    p.sid < q.sid || (p.sid == q.sid && (p.left < q.left || (p.left == q.left && p.right < q.right)))
  }

  predicate Ascending(ps: seq<Position>) {
    forall i, j :: 0 <= i < j < |ps| ==> Before(ps[i], ps[j])
  }

  /** Insertion into an ordered set of positions. */
  function Insert(ps: seq<Position>, p: Position): (r: seq<Position>)
    ensures forall q :: q in r <==> q in ps || q == p
  {
    if ps == [] || Before(p, ps[0]) then
      assert forall q :: q in [p] + ps <==> q in ps || q == p;
      [p] + ps
    else if p == ps[0] then ps
    else
      var r := [ps[0]] + Insert(ps[1..], p);
      assert forall q :: q in ps <==> q == ps[0] || q in ps[1..];
      r
  }

  lemma {:induction false} InsertAscending(ps: seq<Position>, p: Position)
    requires Ascending(ps)
    ensures Ascending(Insert(ps, p))
  {
    if ps == [] || Before(p, ps[0]) {
    } else if p != ps[0] {
      InsertAscending(ps[1..], p);
      var r := Insert(ps[1..], p);
      forall j | 0 <= j < |r| ensures Before(ps[0], r[j]) {
        assert r[j] in r;
      }
    }
  }

  /** freq 0 stands for "to be counted again". */
  datatype Entry = Entry(freq: nat, positions: seq<Position>)

  datatype State = State(rows: seq<Row>, cache: map<Symbol, Entry>)

  /** What pieces are allowed, and how often each sentence occurs. */
  datatype Corpus = Corpus(texts: seq<seq<int>>, weights: seq<nat>, valid: seq<int> -> bool)

  function At(rows: seq<Row>, sid: nat, i: int): Option<Symbol> {
    if sid < |rows| && 0 <= i < |rows[sid]| then rows[sid][i] else None
  }

  // ---------- Neighbours ----------

  /** The next position after i that holds a symbol, -1 if there is none. */
  function Next(row: Row, i: int): (n: int)
    ensures n == -1 || (i < n < |row| && (n >= 0 ==> row[n].Some?))
    ensures forall k :: i < k < |row| && 0 <= k && (n == -1 || k < n) ==> row[k].None?
    decreases |row| - i
  {
    if i + 1 >= |row| then -1
    else if i + 1 >= 0 && row[i + 1].Some? then i + 1
    else Next(row, i + 1)
  }

  function Prev(row: Row, i: int): (n: int)
    ensures n == -1 || (0 <= n < i && n < |row| && row[n].Some?)
    ensures forall k :: 0 <= k < |row| && k < i && n < k ==> row[k].None?
    decreases i
  {
    if i <= 0 then -1
    else if i - 1 < |row| && row[i - 1].Some? then i - 1
    else Prev(row, i - 1)
  }

  /** Positions l and r hold symbols and nothing lies between them. */
  ghost predicate Adjacent(rows: seq<Row>, p: Position) {
    && p.sid < |rows| && p.left < p.right < |rows[p.sid]|
    && rows[p.sid][p.left].Some? && rows[p.sid][p.right].Some?
    && forall k :: p.left < k < p.right ==> rows[p.sid][k].None?
  }

  ghost predicate Gap(rows: seq<Row>, p: Position) {
    && p.sid < |rows| && p.left < p.right < |rows[p.sid]|
    && forall k :: p.left < k < p.right ==> rows[p.sid][k].None?
  }

  /** The pair k stands at p. */
  ghost predicate Stands(rows: seq<Row>, k: Symbol, p: Position) {
    k.Pair? && At(rows, p.sid, p.left) == Some(k.left) && At(rows, p.sid, p.right) == Some(k.right)
  }

  // ---------- Pairs ----------

  /** The pair of two symbols, if there are two, neither is unknown, and it is a valid piece. */
  function PairOf(c: Corpus, l: Option<Symbol>, r: Option<Symbol>): Option<Symbol> {
    if l.None? || r.None? || l.value == Char(UNK_CHAR) || r.value == Char(UNK_CHAR) then None
    else if !c.valid(Chars(Pair(l.value, r.value))) then None
    else Some(Pair(l.value, r.value))
  }

  function PairAt(c: Corpus, rows: seq<Row>, sid: nat, l: int, r: int): Option<Symbol> {
    PairOf(c, At(rows, sid, l), At(rows, sid, r))
  }

  /** Looking a pair up creates it. */
  function Known(cache: map<Symbol, Entry>, k: Symbol): map<Symbol, Entry> {
    if k in cache then cache else cache[k := Entry(0, [])]
  }

  /** The pair at l and r is to be counted again. */
  function Reset(c: Corpus, s: State, sid: nat, l: int, r: int, best: Symbol): State {
    match PairAt(c, s.rows, sid, l, r)
    case None => s
    case Some(k) =>
      var cache := Known(s.cache, k);
      if k == best then s.(cache := cache) else s.(cache := cache[k := cache[k].(freq := 0)])
  }

  /** The pair at l and r is recorded there. */
  function Record(c: Corpus, s: State, sid: nat, l: int, r: int): State {
    match PairAt(c, s.rows, sid, l, r)
    case None => s
    case Some(k) =>
      var cache := Known(s.cache, k);
      if l < 0 || r < 0 then s
      else s.(cache := cache[k := cache[k].(positions := Insert(cache[k].positions, Position(sid, l, r)))])
  }

  /** The symbols at l and r replaced by one. */
  function Replace(rows: seq<Row>, sid: nat, l: nat, r: nat, best: Symbol): seq<Row>
    requires sid < |rows| && l < |rows[sid]| && r < |rows[sid]|
  {
    rows[sid := rows[sid][l := Some(best)][r := None]]
  }

  /** One occurrence of the best pair merged: the neighbouring pairs are to be counted again,
      the new ones are recorded. */
  function MergeAt(c: Corpus, s: State, best: Symbol, p: Position): State
    requires p.sid < |s.rows| && p.left < |s.rows[p.sid]| && p.right < |s.rows[p.sid]|
  {
    var next := Next(s.rows[p.sid], p.right);
    var prev := Prev(s.rows[p.sid], p.left);
    var s1 := Reset(c, s, p.sid, prev, p.left, best);
    var s2 := Reset(c, s1, p.sid, p.right, next, best);
    var s3 := s2.(rows := Replace(s2.rows, p.sid, p.left, p.right, best));
    var s4 := Record(c, s3, p.sid, prev, p.left);
    Record(c, s4, p.sid, p.left, next)
  }
}
