/**
 * The request-scoped context cells of app/core/context.py.  Each cell is a
 * `ContextVar` whose declared default is None; `set` returns a token that
 * remembers what the cell held before, and `reset(token)` puts that back,
 * including "never set" (Python's `Token.MISSING`).
 */
module Context {
  import opened Wrappers

  /** The seven request cells that ContextMiddleware brackets. */
  datatype Cell =
    | HttpIdentifier  // current_http_identifier
    | RequestIp       // current_request_ip
    | RequestMethod   // current_request_method
    | RequestRoute    // current_request_route
    | ClientHost      // current_request_client_host
    | RequestHost     // current_request_host
    | UserAgent       // current_request_user_agent

  /** The cells that have been set: a cell that is not a key was never set. */
  type Cells = map<Cell, Option<string>>

  /** A cell's state before a `set`: never set, or holding a value. */
  datatype Prior = Missing | Held(value: Option<string>)

  /** What `ContextVar.set` returns: the cell and what it held before. */
  datatype Token = Token(cell: Cell, prior: Prior)

  function PriorOf(cells: Cells, c: Cell): Prior {
    if c in cells then Held(cells[c]) else Missing
  }

  /** `var.get()`: the value set last, or the declared default None. */
  function Read(cells: Cells, c: Cell): (v: Option<string>)
    ensures c !in cells ==> v == None
  {
    if c in cells then cells[c] else None
  }

  /** `var.set(v)`: the new cells and the token. */
  function SetCell(cells: Cells, c: Cell, v: Option<string>): (Cells, Token) {
    (cells[c := v], Token(c, PriorOf(cells, c)))
  }

  /** `var.reset(token)`: back to the value in the token, or to "never set". */
  function ResetCell(cells: Cells, t: Token): Cells {
    match t.prior
    case Missing => cells - {t.cell}
    case Held(v) => cells[t.cell := v]
  }

  /** Setting several cells, in order; the tokens come back in the same order. */
  function SetAll(cells: Cells, asg: seq<(Cell, Option<string>)>): (r: (Cells, seq<Token>))
    ensures |r.1| == |asg|
  {
    if asg == [] then (cells, [])
    else
      var (m, ts) := SetAll(cells, asg[..|asg| - 1]);
      var (m', t) := SetCell(m, asg[|asg| - 1].0, asg[|asg| - 1].1);
      (m', ts + [t])
  }

  /** Setting one more cell extends the run of sets by one step. */
  lemma SetAllStep(cells: Cells, done: seq<(Cell, Option<string>)>, c: Cell, v: Option<string>,
                   m: Cells, ts: seq<Token>, t: Token, m': Cells)
    requires m == SetAll(cells, done).0 && ts == SetAll(cells, done).1
    requires m' == m[c := v] && t == Token(c, PriorOf(m, c))
    ensures m' == SetAll(cells, done + [(c, v)]).0 && ts + [t] == SetAll(cells, done + [(c, v)]).1
  {
    assert (done + [(c, v)])[..|done|] == done;
  }

  /** Resetting with several tokens, first token first. */
  function ResetAll(cells: Cells, ts: seq<Token>): Cells {
    if ts == [] then cells else ResetCell(ResetAll(cells, ts[..|ts| - 1]), ts[|ts| - 1])
  }

  /** Resetting with one more token extends the run of resets by one step. */
  lemma ResetAllStep(cells: Cells, ts: seq<Token>, k: nat)
    requires k < |ts|
    ensures ResetAll(cells, ts[..k + 1]) == ResetCell(ResetAll(cells, ts[..k]), ts[k])
  {
    assert ts[..k + 1][..k] == ts[..k];
  }

  function CellsOf(asg: seq<(Cell, Option<string>)>): seq<Cell> {
    seq(|asg|, i requires 0 <= i < |asg| => asg[i].0)
  }

  function TokenCells(ts: seq<Token>): seq<Cell> {
    seq(|ts|, i requires 0 <= i < |ts| => ts[i].cell)
  }

  predicate Distinct(cs: seq<Cell>) {
    forall i, j :: 0 <= i < j < |cs| ==> cs[i] != cs[j]
  }

  /**
   * After setting distinct cells: each token records what its cell held at the
   * start, each set cell reads its new value, and every other cell is untouched.
   */
  lemma {:induction false} SetAllEffect(cells: Cells, asg: seq<(Cell, Option<string>)>)
    requires Distinct(CellsOf(asg))
    ensures var (after, ts) := SetAll(cells, asg);
            && TokenCells(ts) == CellsOf(asg)
            && (forall i :: 0 <= i < |asg| ==> ts[i].prior == PriorOf(cells, asg[i].0))
            && (forall i :: 0 <= i < |asg| ==> PriorOf(after, asg[i].0) == Held(asg[i].1))
            && (forall c :: c !in CellsOf(asg) ==> PriorOf(after, c) == PriorOf(cells, c))
  {
    if asg != [] {
      var n := |asg| - 1;
      var front := asg[..n];
      assert CellsOf(front) == CellsOf(asg)[..n];
      SetAllEffect(cells, front);
      var (m, ts) := SetAll(cells, front);
      var (after, ts') := SetAll(cells, asg);
      assert after == m[asg[n].0 := asg[n].1];
      assert ts' == ts + [Token(asg[n].0, PriorOf(m, asg[n].0))];
      forall i | 0 <= i < n ensures CellsOf(front)[i] != asg[n].0 {
        assert CellsOf(asg)[i] != CellsOf(asg)[n];
      }
      assert asg[n].0 !in CellsOf(front);
      assert TokenCells(ts') == TokenCells(ts) + [asg[n].0];
      assert CellsOf(asg) == CellsOf(front) + [asg[n].0];
      forall i | 0 <= i < |asg| ensures PriorOf(after, asg[i].0) == Held(asg[i].1) {
        if i < n {
          assert CellsOf(asg)[i] != CellsOf(asg)[n];
          assert front[i] == asg[i];
        }
      }
      forall i | 0 <= i < |asg| ensures ts'[i].prior == PriorOf(cells, asg[i].0) {
        if i < n {
          assert front[i] == asg[i];
        } else {
          assert asg[n].0 !in CellsOf(front);
        }
      }
    }
  }

  /**
   * After resetting with tokens of distinct cells, each of those cells is back
   * to its token's state and every other cell is untouched.
   */
  lemma {:induction false} ResetAllEffect(cells: Cells, ts: seq<Token>)
    requires Distinct(TokenCells(ts))
    ensures forall i :: 0 <= i < |ts| ==> PriorOf(ResetAll(cells, ts), ts[i].cell) == ts[i].prior
    ensures forall c :: c !in TokenCells(ts) ==> PriorOf(ResetAll(cells, ts), c) == PriorOf(cells, c)
  {
    if ts != [] {
      var n := |ts| - 1;
      var front := ts[..n];
      assert TokenCells(front) == TokenCells(ts)[..n];
      ResetAllEffect(cells, front);
      assert TokenCells(ts) == TokenCells(front) + [ts[n].cell];
      forall i | 0 <= i < n ensures TokenCells(front)[i] != ts[n].cell {
        assert TokenCells(ts)[i] != TokenCells(ts)[n];
      }
      assert ts[n].cell !in TokenCells(front);
      forall i | 0 <= i < |ts| ensures PriorOf(ResetAll(cells, ts), ts[i].cell) == ts[i].prior {
        if i < n {
          assert TokenCells(ts)[i] != TokenCells(ts)[n];
          assert front[i] == ts[i];
        }
      }
    }
  }

  /** Two stores whose cells are all in the same state are the same store. */
  lemma SameCells(a: Cells, b: Cells)
    requires forall c :: PriorOf(a, c) == PriorOf(b, c)
    ensures a == b
  {
    assert forall c :: c in a <==> c in b by {
      forall c ensures c in a <==> c in b {
        assert PriorOf(a, c) == PriorOf(b, c);
      }
    }
    forall c | c in a ensures a[c] == b[c] {
      assert PriorOf(a, c) == PriorOf(b, c);
    }
  }

  /**
   * The bracket: setting distinct cells and then resetting them with their
   * tokens, in the same order as they were set, restores every cell exactly,
   * including the ones that had never been set.
   */
  lemma BracketRestores(cells: Cells, asg: seq<(Cell, Option<string>)>)
    requires Distinct(CellsOf(asg))
    ensures var (after, ts) := SetAll(cells, asg); ResetAll(after, ts) == cells
  {
    var (after, ts) := SetAll(cells, asg);
    SetAllEffect(cells, asg);
    ResetAllEffect(after, ts);
    forall c ensures PriorOf(ResetAll(after, ts), c) == PriorOf(cells, c) {
      if c in CellsOf(asg) {
        var i :| 0 <= i < |asg| && CellsOf(asg)[i] == c;
        assert TokenCells(ts)[i] == c;
      }
    }
    SameCells(ResetAll(after, ts), cells);
  }

  /**
   * The module-level cells.  `current_user_id` is kept apart: it holds an int,
   * and the middleware neither sets nor resets it.
   */
  class ContextStore {
    var cells: Cells
    var userId: Option<int>

    /** At import time no cell has been set: every cell reads None. */
    constructor ()
      ensures cells == map[] && userId == None
      ensures forall c :: Get(c) == None
    {
      cells := map[];
      userId := None;
    }

    function Get(c: Cell): Option<string>
      reads this
    {
      Read(cells, c)
    }

    method Set(c: Cell, v: Option<string>) returns (t: Token)
      modifies this
      ensures cells == old(cells)[c := v] && t == Token(c, PriorOf(old(cells), c))
      ensures userId == old(userId)
    {
      t := Token(c, PriorOf(cells, c));
      cells := cells[c := v];
    }

    method Reset(t: Token)
      modifies this
      ensures cells == ResetCell(old(cells), t)
      ensures userId == old(userId)
    {
      match t.prior
      case Missing => cells := cells - {t.cell};
      case Held(v) => cells := cells[t.cell := v];
    }
  }
}
