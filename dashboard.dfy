/**
 The dashboard's state and its handlers: the city selection handlers and `getPrices`, which
 fills a product × city matrix with `null`, lists one search task per target product and
 selected city, and writes every task's result into the matrix. The tasks run one after the
 other here; the search request itself is the parameter `fetch`.
 */
module Dashboard {
  import opened JsRuntime
  import opened Cities
  import opened Offers
  import opened ProductList
  import opened CitySelection
  import opened Popover

  /** One row of `results`: city code to the city result, `None` for `null`. */
  type CityRow = map<string, Option<CityResult>>

  /** `results` / `next`: product name to its row. */
  type Matrix = map<string, CityRow>

  /** One `fetchCityOffers(p, c.code, apiKey)` call. */
  datatype Task = Task(product: string, code: string)

  /** What the request yields: a response, or a failure (network error, unreadable body) that
      rejects the task's promise. */
  datatype NetResult = NetworkError | Received(response: Response)

  /** A settled task: rejected, or resolved with the city result or `null`. */
  datatype Outcome = Rejected | Resolved(result: Option<CityResult>)

  /** `fetchCityOffers(t.product, t.code, apiKey)`; `clock(t)` is what `nowTime()` returns
      when that call builds its result. */
  function TaskOutcome(fetch: Query -> NetResult, apiKey: string, clock: Task -> string, t: Task): (o: Outcome)
    ensures o.Rejected? <==> fetch(QueryFor(t.product, t.code, apiKey)).NetworkError?
    ensures o.Resolved? ==> o.result == CityOffers(fetch(QueryFor(t.product, t.code, apiKey)).response, clock(t))
  {
    match fetch(QueryFor(t.product, t.code, apiKey))
    case NetworkError => Rejected
    case Received(res) => Resolved(CityOffers(res, clock(t)))
  }

  /** The outcome of every task that `getPrices` may start with this key. */
  function Outcomes(fetch: Query -> NetResult, apiKey: string, clock: Task -> string): Task -> Outcome {
    t => TaskOutcome(fetch, apiKey, clock, t)
  }

  // ---------------------------------------------------------------------------
  // The specification of the fan-out.

  /** The codes of `codes` that are in `sel`, in the order of `codes`. */
  function KeepSelected(codes: seq<string>, sel: seq<string>): (r: seq<string>)
    ensures |r| <= |codes|
    ensures forall i :: 0 <= i < |r| ==> r[i] in sel
  {
    if codes == [] then []
    else
      var last := codes[|codes| - 1];
      KeepSelected(codes[..|codes| - 1], sel) + (if last in sel then [last] else [])
  }

  /** A code is kept exactly when it is listed and selected. */
  lemma {:induction false} KeepSelectedMembers(codes: seq<string>, sel: seq<string>, c: string)
    ensures c in KeepSelected(codes, sel) <==> c in codes && c in sel
  {
    if codes != [] {
      var init, last := codes[..|codes| - 1], codes[|codes| - 1];
      KeepSelectedMembers(init, sel, c);
      assert codes == init + [last];
    }
  }

  /** `filter` keeps the order and the duplicates of the list: what is kept of a concatenation
      is what is kept of the first part, then what is kept of the second. */
  lemma {:induction false} KeepSelectedAppend(a: seq<string>, b: seq<string>, sel: seq<string>)
    ensures KeepSelected(a + b, sel) == KeepSelected(a, sel) + KeepSelected(b, sel)
    decreases |b|
  {
    if b == [] {
      assert a + b == a;
    } else {
      var init, last := b[..|b| - 1], b[|b| - 1];
      assert (a + b)[..|a + b| - 1] == a + init && (a + b)[|a + b| - 1] == last;
      KeepSelectedAppend(a, init, sel);
    }
  }

  /** One element is kept exactly when it is selected. */
  lemma {:induction false} KeepSelectedOne(x: string, sel: seq<string>)
    ensures KeepSelected([x], sel) == (if x in sel then [x] else [])
  {
    assert [x][..0] == [];
  }

  /** Keeping codes from a list without duplicates gives a list without duplicates. */
  lemma {:induction false} KeepSelectedDistinct(codes: seq<string>, sel: seq<string>)
    requires NoDuplicates(codes)
    ensures NoDuplicates(KeepSelected(codes, sel))
  {
    if codes != [] {
      var init, last := codes[..|codes| - 1], codes[|codes| - 1];
      assert NoDuplicates(init) by {
        forall i, j | 0 <= i < j < |init| ensures init[i] != init[j] {
          assert init[i] == codes[i] && init[j] == codes[j];
        }
      }
      KeepSelectedDistinct(init, sel);
      assert last !in init by {
        forall i | 0 <= i < |init| ensures init[i] != last {
          assert init[i] == codes[i];
        }
      }
      KeepSelectedMembers(init, sel, last);
    }
  }

  /** The catalog cities that `selectedSet` holds, in catalog order. */
  function SelectedCodes(sel: seq<string>): (r: seq<string>)
    ensures |r| <= |CatalogCodes()|
    ensures forall i :: 0 <= i < |r| ==> r[i] in sel
  {
    KeepSelected(CatalogCodes(), sel)
  }

  /** What the fan-out visits: each selected catalog city once. */
  lemma {:induction false} SelectedCodesShape(sel: seq<string>, c: string)
    ensures c in SelectedCodes(sel) <==> c in CatalogCodes() && c in sel
    ensures NoDuplicates(SelectedCodes(sel))
  {
    CatalogShape();
    KeepSelectedMembers(CatalogCodes(), sel, c);
    KeepSelectedDistinct(CatalogCodes(), sel);
  }

  /** `targetProducts`: every array is truthy, so `Some([])` selects no product at all. */
  function TargetProducts(products: seq<string>, onlyProducts: Option<seq<string>>): (r: seq<string>)
    ensures |r| <= |products|
  {
    if onlyProducts.None? then products else KeepSelected(products, onlyProducts.value)
  }

  /** All products without `onlyProducts`, otherwise those it includes, duplicates and order
      kept. */
  lemma {:induction false} TargetProductMembers(products: seq<string>, onlyProducts: Option<seq<string>>, p: string)
    ensures onlyProducts.None? ==> TargetProducts(products, onlyProducts) == products
    ensures onlyProducts.Some? ==>
      (p in TargetProducts(products, onlyProducts) <==> p in products && p in onlyProducts.value)
  {
    if onlyProducts.Some? {
      KeepSelectedMembers(products, onlyProducts.value, p);
    }
  }

  /** The targets keep the products' order and duplicates: those of a concatenation are those
      of the first part, then those of the second. */
  lemma {:induction false} TargetProductsAppend(a: seq<string>, b: seq<string>, onlyProducts: Option<seq<string>>)
    ensures TargetProducts(a + b, onlyProducts) == TargetProducts(a, onlyProducts) + TargetProducts(b, onlyProducts)
  {
    if onlyProducts.Some? {
      KeepSelectedAppend(a, b, onlyProducts.value);
    }
  }

  /** `Some([])` is not `null`: no product is a target. */
  lemma {:induction false} EmptyOnlyProductsSelectsNothing(products: seq<string>)
    ensures TargetProducts(products, Some([])) == []
  {
    if products != [] {
      EmptyOnlyProductsSelectsNothing(products[..|products| - 1]);
    }
  }

  /** A row of `null` for the given codes. */
  function NullRow(codes: seq<string>): CityRow {
    map c | c in codes :: None
  }

  /** `next` after the `products.forEach`. */
  function InitialMatrix(products: seq<string>, codes: seq<string>): (m: Matrix)
    ensures forall p :: p in m <==> p in products
    ensures forall p, c :: p in m ==> (c in m[p] <==> c in codes)
    ensures forall p, c :: p in m && c in m[p] ==> m[p][c] == None
  {
    map p | p in products :: NullRow(codes)
  }

  /** Every product, target or not, has a `null` for every selected catalog city and nothing
      else. */
  lemma {:induction false} InitialMatrixCell(products: seq<string>, codes: seq<string>, p: string, c: string)
    ensures var m := InitialMatrix(products, codes);
      && (p in m <==> p in products)
      && (p in m ==> (c in m[p] <==> c in codes))
      && (p in m && c in m[p] ==> m[p][c] == None)
  {
  }

  /** The tasks of one product, one per code, in order. */
  function TaskRow(p: string, codes: seq<string>): (r: seq<Task>)
    ensures |r| == |codes|
  {
    if codes == [] then [] else TaskRow(p, codes[..|codes| - 1]) + [Task(p, codes[|codes| - 1])]
  }

  lemma {:induction false} TaskRowIndex(p: string, codes: seq<string>, j: nat)
    requires j < |codes|
    ensures TaskRow(p, codes)[j] == Task(p, codes[j])
  {
    if j < |codes| - 1 {
      TaskRowIndex(p, codes[..|codes| - 1], j);
    }
  }

  /** The `tasks` array: products in order, and for each the codes in order. */
  function TaskList(targets: seq<string>, codes: seq<string>): (r: seq<Task>)
    ensures |r| == |targets| * |codes|
  {
    if targets == [] then []
    else
      RowStep(|targets| - 1, |codes|);
      TaskList(targets[..|targets| - 1], codes) + TaskRow(targets[|targets| - 1], codes)
  }

  /** Task number `i * |codes| + j` is product `i` in city `j`. */
  lemma {:induction false} TaskListIndex(targets: seq<string>, codes: seq<string>, i: nat, j: nat)
    requires i < |targets| && j < |codes|
    ensures i * |codes| + j < |TaskList(targets, codes)|
    ensures TaskList(targets, codes)[i * |codes| + j] == Task(targets[i], codes[j])
  {
    var n, m := |targets|, |codes|;
    var init, last := targets[..n - 1], targets[n - 1];
    var before := TaskList(init, codes);
    assert TaskList(targets, codes) == before + TaskRow(last, codes);
    IndexBound(i, j, m, n);
    if i < n - 1 {
      TaskListIndex(init, codes, i, j);
      IndexBound(i, j, m, n - 1);
      assert init[i] == targets[i];
    } else {
      assert i * m + j == |before| + j;
      TaskRowIndex(last, codes, j);
    }
  }

  /** Cell `j` of row `i` lies before the end of `n` rows of `m` cells. */
  lemma {:induction false} IndexBound(i: nat, j: nat, m: nat, n: nat)
    requires i < n && j < m
    ensures i * m + j < n * m
    ensures i == n - 1 ==> i * m == n * m - m
  {
    RowStep(i, m);
    RowStep(n - 1, m);
    RowsGrow(i + 1, n, m);
  }

  lemma {:induction false} RowStep(x: nat, m: nat)
    ensures (x + 1) * m == x * m + m
  {
  }

  lemma {:induction false} RowsGrow(a: nat, b: nat, m: nat)
    requires a <= b
    ensures a * m <= b * m
    decreases b - a
  {
    if a < b {
      RowStep(a, m);
      RowsGrow(a + 1, b, m);
    }
  }

  /** A task is listed exactly when its product is a target and its code a selected city. */
  lemma {:induction false} TaskListMembers(targets: seq<string>, codes: seq<string>, t: Task)
    ensures t in TaskList(targets, codes) <==> t.product in targets && t.code in codes
  {
    if targets != [] {
      var init, last := targets[..|targets| - 1], targets[|targets| - 1];
      TaskListMembers(init, codes, t);
      assert targets == init + [last];
      var row := TaskRow(last, codes);
      assert t in row <==> t.product == last && t.code in codes by {
        if t in row {
          var j :| 0 <= j < |row| && row[j] == t;
          TaskRowIndex(last, codes, j);
        }
        if t.product == last && t.code in codes {
          var j :| 0 <= j < |codes| && codes[j] == t.code;
          TaskRowIndex(last, codes, j);
        }
      }
    }
  }

  function Lookup(m: Matrix, p: string): CityRow {
    if p in m then m[p] else map[]
  }

  /** `next[p] ||= {}; next[p][c.code] = res` */
  function Write(m: Matrix, t: Task, r: Option<CityResult>): (w: Matrix)
    ensures t.product in w && t.code in w[t.product] && w[t.product][t.code] == r
    ensures forall p, c :: p in m && c in m[p] && (p, c) != (t.product, t.code) ==> p in w && c in w[p] && w[p][c] == m[p][c]
  {
    m[t.product := Lookup(m, t.product)[t.code := r]]
  }

  /** The matrix once the given tasks have settled, in order: a resolved task writes its
      result, a rejected one writes nothing. */
  function Run(m: Matrix, tasks: seq<Task>, outcome: Task -> Outcome): (r: Matrix)
    ensures (forall k :: 0 <= k < |tasks| ==> outcome(tasks[k]).Rejected?) ==> r == m
    decreases |tasks|
  {
    if tasks == [] then m
    else
      assert forall k :: 0 <= k < |tasks| - 1 ==> tasks[..|tasks| - 1][k] == tasks[k];
      var before := Run(m, tasks[..|tasks| - 1], outcome);
      var t := tasks[|tasks| - 1];
      match outcome(t)
      case Rejected => before
      case Resolved(r) => Write(before, t, r)
  }

  predicate AnyRejected(tasks: seq<Task>, outcome: Task -> Outcome) {
    exists k :: 0 <= k < |tasks| && outcome(tasks[k]).Rejected?
  }

  /** A resolved task's result is in the matrix afterwards. A later task for the same pair
      writes the same result, since the outcome depends on the task alone. */
  lemma {:induction false} RunResolved(m: Matrix, tasks: seq<Task>, outcome: Task -> Outcome, k: nat)
    requires k < |tasks| && outcome(tasks[k]).Resolved?
    ensures var after := Run(m, tasks, outcome);
      && tasks[k].product in after && tasks[k].code in after[tasks[k].product]
      && after[tasks[k].product][tasks[k].code] == outcome(tasks[k]).result
    decreases |tasks|
  {
    var init := tasks[..|tasks| - 1];
    if k < |tasks| - 1 {
      assert init[k] == tasks[k];
      RunResolved(m, init, outcome, k);
    }
  }

  /** Every cell of the matrix survives the tasks, and one that no resolved task addresses
      keeps its value. */
  lemma {:induction false} RunKeeps(m: Matrix, tasks: seq<Task>, outcome: Task -> Outcome, p: string, c: string)
    requires p in m && c in m[p]
    ensures var after := Run(m, tasks, outcome);
      p in after && c in after[p]
    ensures (forall k :: 0 <= k < |tasks| && tasks[k] == Task(p, c) ==> outcome(tasks[k]).Rejected?)
      ==> Run(m, tasks, outcome)[p][c] == m[p][c]
    decreases |tasks|
  {
    if tasks != [] {
      var init := tasks[..|tasks| - 1];
      assert forall k :: 0 <= k < |init| ==> init[k] == tasks[k];
      RunKeeps(m, init, outcome, p, c);
    }
  }

  /** The matrix `getPrices` leaves: each target product in each selected city holds what its
      search returned, and every other cell of the initial matrix is still `null`. */
  lemma {:induction false} FanOutResult(products: seq<string>, onlyProducts: Option<seq<string>>, sel: seq<string>,
                                        outcome: Task -> Outcome,
                                        p: string, c: string)
    requires p in products && c in SelectedCodes(sel)
    ensures var codes := SelectedCodes(sel);
      var targets := TargetProducts(products, onlyProducts);
      var after := Run(InitialMatrix(products, codes), TaskList(targets, codes), outcome);
      var o := outcome(Task(p, c));
      && p in after && c in after[p]
      && after[p][c] == (if p in targets && o.Resolved? then o.result else None)
  {
    var codes := SelectedCodes(sel);
    var targets := TargetProducts(products, onlyProducts);
    var m := InitialMatrix(products, codes);
    var tasks := TaskList(targets, codes);
    var t := Task(p, c);
    InitialMatrixCell(products, codes, p, c);
    TargetProductMembers(products, onlyProducts, p);
    TaskListMembers(targets, codes, t);
    RunKeeps(m, tasks, outcome, p, c);
    if p in targets && outcome(t).Resolved? {
      var k :| 0 <= k < |tasks| && tasks[k] == t;
      RunResolved(m, tasks, outcome, k);
    }
  }

  /** Tasks that address cells of the matrix add no product and no city to it. */
  lemma {:induction false} RunShape(m: Matrix, tasks: seq<Task>, outcome: Task -> Outcome, p: string, c: string)
    requires forall k :: 0 <= k < |tasks| ==> tasks[k].product in m && tasks[k].code in m[tasks[k].product]
    ensures var after := Run(m, tasks, outcome);
      && (p in after <==> p in m)
      && (p in m ==> (c in after[p] <==> c in m[p]))
    decreases |tasks|
  {
    if tasks != [] {
      var init := tasks[..|tasks| - 1];
      assert forall k :: 0 <= k < |init| ==> init[k] == tasks[k];
      RunShape(m, init, outcome, p, c);
      var t := tasks[|tasks| - 1];
      RunKeeps(m, init, outcome, t.product, t.code);
    }
  }

  /** `results` after `getPrices` has a row for every product and nothing else, and each row a
      cell for every selected catalog city and nothing else. */
  lemma {:induction false} FanOutShape(products: seq<string>, onlyProducts: Option<seq<string>>, sel: seq<string>,
                                       outcome: Task -> Outcome, p: string, c: string)
    ensures var codes := SelectedCodes(sel);
      var after := Run(InitialMatrix(products, codes), TaskList(TargetProducts(products, onlyProducts), codes), outcome);
      && (p in after <==> p in products)
      && (p in after ==> (c in after[p] <==> c in CatalogCodes() && c in sel))
  {
    var codes := SelectedCodes(sel);
    var targets := TargetProducts(products, onlyProducts);
    var m := InitialMatrix(products, codes);
    var tasks := TaskList(targets, codes);
    forall k | 0 <= k < |tasks| ensures tasks[k].product in m && tasks[k].code in m[tasks[k].product] {
      var t := tasks[k];
      TaskListMembers(targets, codes, t);
      TargetProductMembers(products, onlyProducts, t.product);
      if onlyProducts.None? {
        assert t.product in products;
      }
      InitialMatrixCell(products, codes, t.product, t.code);
    }
    RunShape(m, tasks, outcome, p, c);
    InitialMatrixCell(products, codes, p, c);
    SelectedCodesShape(sel, c);
  }

  /** A target product's cell for a selected city holds what its own search returned:
      the city result built from the response, or `null` when the request failed or the
      response gave no offer. A product that is not a target keeps its `null`. */
  lemma {:induction false} SearchedCell(products: seq<string>, onlyProducts: Option<seq<string>>, sel: seq<string>,
                                        fetch: Query -> NetResult, apiKey: string, clock: Task -> string,
                                        p: string, c: string)
    requires p in products && c in CatalogCodes() && c in sel
    ensures var codes := SelectedCodes(sel);
      var targets := TargetProducts(products, onlyProducts);
      var after := Run(InitialMatrix(products, codes), TaskList(targets, codes), Outcomes(fetch, apiKey, clock));
      var answer := fetch(QueryFor(p, c, apiKey));
      && p in after && c in after[p]
      && after[p][c] == (if p in targets && answer.Received? then CityOffers(answer.response, clock(Task(p, c))) else None)
  {
    SelectedCodesShape(sel, c);
    FanOutResult(products, onlyProducts, sel, Outcomes(fetch, apiKey, clock), p, c);
  }

  // ---------------------------------------------------------------------------
  // The loops of `getPrices`.

  lemma {:induction false} KeepSelectedStep(codes: seq<string>, sel: seq<string>, j: nat)
    requires j < |codes|
    ensures codes[j] in sel ==> KeepSelected(codes[..j + 1], sel) == KeepSelected(codes[..j], sel) + [codes[j]]
    ensures codes[j] !in sel ==> KeepSelected(codes[..j + 1], sel) == KeepSelected(codes[..j], sel)
  {
    assert codes[..j + 1][..j] == codes[..j];
    assert KeepSelected(codes[..j], sel) + [] == KeepSelected(codes[..j], sel);
  }

  lemma {:induction false} NullRowStep(codes: seq<string>, c: string)
    ensures NullRow(codes + [c]) == NullRow(codes)[c := None]
  {
    var l, r := NullRow(codes + [c]), NullRow(codes)[c := None];
    assert forall x :: x in l <==> x in r;
    assert forall x :: x in l ==> l[x] == r[x];
  }

  lemma {:induction false} InitialMatrixStep(products: seq<string>, p: string, codes: seq<string>)
    ensures InitialMatrix(products + [p], codes) == InitialMatrix(products, codes)[p := NullRow(codes)]
  {
    var l, r := InitialMatrix(products + [p], codes), InitialMatrix(products, codes)[p := NullRow(codes)];
    assert forall x :: x in l <==> x in r;
    assert forall x :: x in l ==> l[x] == r[x];
  }

  /** The `products.forEach`: `next[p] = {}`, then the row of one product. */
  method BuildMatrix(products: seq<string>, sel: seq<string>) returns (next: Matrix)
    ensures next == InitialMatrix(products, SelectedCodes(sel))
  {
    var codes := SelectedCodes(sel);
    next := map[];
    var i := 0;
    while i < |products|
      invariant 0 <= i <= |products|
      invariant next == InitialMatrix(products[..i], codes)
    {
      var p := products[i];
      var row := BuildNullRow(sel);
      InitialMatrixStep(products[..i], p, codes);
      assert products[..i + 1] == products[..i] + [p];
      next := next[p := row];
      i := i + 1;
    }
    assert products[..|products|] == products;
  }

  /** The inner `CITIES.forEach`: `null` for each selected catalog city. */
  method BuildNullRow(sel: seq<string>) returns (row: CityRow)
    ensures row == NullRow(SelectedCodes(sel))
  {
    var all := CatalogCodes();
    row := map[];
    var j := 0;
    while j < |all|
      invariant 0 <= j <= |all|
      invariant row == NullRow(KeepSelected(all[..j], sel))
    {
      var c := all[j];
      KeepSelectedStep(all, sel, j);
      if c in sel {
        NullRowStep(KeepSelected(all[..j], sel), c);
        row := row[c := None];
      }
      j := j + 1;
    }
    assert all[..|all|] == all;
  }

  lemma {:induction false} TaskRowStep(p: string, codes: seq<string>, c: string)
    ensures TaskRow(p, codes + [c]) == TaskRow(p, codes) + [Task(p, c)]
  {
    assert (codes + [c])[..|codes|] == codes;
  }

  lemma {:induction false} TaskListStep(targets: seq<string>, codes: seq<string>, i: nat)
    requires i < |targets|
    ensures TaskList(targets[..i + 1], codes) == TaskList(targets[..i], codes) + TaskRow(targets[i], codes)
  {
    assert targets[..i + 1][..i] == targets[..i];
  }

  /** The outer `for` loop of the task list: one row of tasks per target product. */
  method BuildTasks(targets: seq<string>, sel: seq<string>) returns (tasks: seq<Task>)
    ensures tasks == TaskList(targets, SelectedCodes(sel))
  {
    var codes := SelectedCodes(sel);
    tasks := [];
    var i := 0;
    while i < |targets|
      invariant 0 <= i <= |targets|
      invariant tasks == TaskList(targets[..i], codes)
    {
      var row := BuildTaskRow(targets[i], sel);
      TaskListStep(targets, codes, i);
      tasks := tasks + row;
      i := i + 1;
    }
    assert targets[..|targets|] == targets;
  }

  /** The inner `for` loop: one task per selected catalog city, skipping the others. */
  method BuildTaskRow(p: string, sel: seq<string>) returns (row: seq<Task>)
    ensures row == TaskRow(p, SelectedCodes(sel))
  {
    var all := CatalogCodes();
    row := [];
    var j := 0;
    while j < |all|
      invariant 0 <= j <= |all|
      invariant row == TaskRow(p, KeepSelected(all[..j], sel))
    {
      var c := all[j];
      KeepSelectedStep(all, sel, j);
      if c in sel {
        TaskRowStep(p, KeepSelected(all[..j], sel), c);
        row := row + [Task(p, c)];
      }
      j := j + 1;
    }
    assert all[..|all|] == all;
  }

  lemma {:induction false} RunStep(m: Matrix, tasks: seq<Task>, outcome: Task -> Outcome, i: nat)
    requires i < |tasks|
    ensures var o := outcome(tasks[i]);
      var before := Run(m, tasks[..i], outcome);
      Run(m, tasks[..i + 1], outcome) == (if o.Rejected? then before else Write(before, tasks[i], o.result))
  {
    assert tasks[..i + 1][..i] == tasks[..i];
  }

  lemma {:induction false} AnyRejectedStep(tasks: seq<Task>, outcome: Task -> Outcome, i: nat)
    requires i < |tasks|
    ensures AnyRejected(tasks[..i + 1], outcome)
      <==> AnyRejected(tasks[..i], outcome) || outcome(tasks[i]).Rejected?
  {
    var longer, shorter := tasks[..i + 1], tasks[..i];
    assert forall k :: 0 <= k < i ==> longer[k] == shorter[k];
    assert longer[i] == tasks[i];
  }

  /** The tasks settling one after the other; `rejected` is whether any of them rejected,
      which sends `Promise.all` to the `catch`. */
  method RunTasks(next: Matrix, tasks: seq<Task>, outcome: Task -> Outcome)
    returns (final: Matrix, rejected: bool)
    ensures final == Run(next, tasks, outcome)
    ensures rejected <==> AnyRejected(tasks, outcome)
  {
    final := next;
    rejected := false;
    var i := 0;
    while i < |tasks|
      invariant 0 <= i <= |tasks|
      invariant final == Run(next, tasks[..i], outcome)
      invariant rejected <==> AnyRejected(tasks[..i], outcome)
    {
      var t := tasks[i];
      RunStep(next, tasks, outcome, i);
      AnyRejectedStep(tasks, outcome, i);
      var o := outcome(t);
      if o.Rejected? {
        rejected := true;
      } else {
        final := Write(final, t, o.result);
      }
      i := i + 1;
    }
    assert tasks[..|tasks|] == tasks;
  }

  /** The body of the `try` in `getPrices`: the `null` matrix, the task list, and the matrix
      once every task has settled. */
  method FanOut(products: seq<string>, onlyProducts: Option<seq<string>>, sel: seq<string>,
                outcome: Task -> Outcome)
    returns (next: Matrix, tasks: seq<Task>, final: Matrix, rejected: bool)
    ensures next == InitialMatrix(products, SelectedCodes(sel))
    ensures tasks == TaskList(TargetProducts(products, onlyProducts), SelectedCodes(sel))
    ensures final == Run(next, tasks, outcome)
    ensures rejected <==> AnyRejected(tasks, outcome)
  {
    var targets := TargetProducts(products, onlyProducts);
    next := BuildMatrix(products, sel);
    tasks := BuildTasks(targets, sel);
    final, rejected := RunTasks(next, tasks, outcome);
  }

  /** `getPrices({ onlyProducts })` run to completion, on the values of the component state it
      reads (`productsText`, `selectedCities`, `apiKey`) and the old values of those it may leave
      alone. Returns the tasks in the order they were started; `finishTime` is what `nowTime()`
      returns once all of them have settled. */
  method GetPricesOn(productsText: string, selectedCities: seq<string>, apiKey: string,
                     onlyProducts: Option<seq<string>>, fetch: Query -> NetResult, clock: Task -> string,
                     finishTime: string, results0: Matrix, loading0: bool, lastUpdated0: string)
    returns (tasks: seq<Task>, results: Matrix, hasRequested: bool, loading: bool, error: bool, lastUpdated: string)
    ensures apiKey == "" ==>
      && tasks == [] && !hasRequested && error
      && results == results0 && loading == loading0 && lastUpdated == lastUpdated0
    ensures apiKey != "" ==>
      var codes := SelectedCodes(selectedCities);
      && tasks == TaskList(TargetProducts(Products(productsText), onlyProducts), codes)
      && results == Run(InitialMatrix(Products(productsText), codes), tasks, Outcomes(fetch, apiKey, clock))
      && hasRequested && !loading
      && error == AnyRejected(tasks, Outcomes(fetch, apiKey, clock))
      && lastUpdated == (if error then lastUpdated0 else finishTime)
  {
    results, loading, lastUpdated := results0, loading0, lastUpdated0;
    if apiKey == "" {
      hasRequested := false;
      error := true;
      tasks := [];
      return;
    }
    error := false;
    loading := true;
    hasRequested := true;
    var next, final, rejected;
    next, tasks, final, rejected := FanOut(Products(productsText), onlyProducts, selectedCities, Outcomes(fetch, apiKey, clock));
    results := next;
    results := final;
    if rejected {
      error := true;
    } else {
      lastUpdated := finishTime;
    }
    loading := false;
  }

  /** The effect on `products.length`, which runs only when the length changes: back to the
      empty state when the new text lists no product. Counted in white space, the state is
      cleared exactly when a text with products becomes blank. */
  method ClearWhenNoProducts(oldText: string, text: string, hasRequested0: bool) returns (hasRequested: bool)
    ensures hasRequested == (hasRequested0 && !(AllWhitespace(text) && !AllWhitespace(oldText)))
  {
    hasRequested := hasRequested0;
    NoProductsIffBlank(text);
    NoProductsIffBlank(oldText);
    var before, after := Products(oldText), Products(text);
    if |after| != |before| {
      if |after| == 0 {
        hasRequested := false;
      }
    }
  }

  // ---------------------------------------------------------------------------
  // The component state.

  /** The state of the `App` component. The three stored values are read from storage when
      the component is created; storage itself is not modelled. */
  class App {
    var productsText: string
    var selectedCities: seq<string>
    var apiKey: string
    var results: Matrix
    var hasRequested: bool
    var loading: bool
    var error: bool
    var lastUpdated: string
    var popover: PopoverState

    /** `useLocalStorage` falls back to the initial value when nothing (or an empty item) is
        stored; `storedX` is the parsed item, `None` when there is none. */
    constructor (storedProducts: Option<string>, storedCities: Option<seq<string>>, storedKey: Option<string>)
      ensures productsText == (if storedProducts.Some? then storedProducts.value else "")
      ensures selectedCities == (if storedCities.Some? then storedCities.value else CatalogCodes())
      ensures apiKey == (if storedKey.Some? then storedKey.value else "")
      ensures results == map[] && !hasRequested && !loading && !error && lastUpdated == ""
      ensures popover == CLOSED
    {
      productsText := if storedProducts.Some? then storedProducts.value else "";
      selectedCities := if storedCities.Some? then storedCities.value else CatalogCodes();
      apiKey := if storedKey.Some? then storedKey.value else "";
      results := map[];
      hasRequested := false;
      loading := false;
      error := false;
      lastUpdated := "";
      popover := CLOSED;
    }

    /** Editing the text area, followed by the effect on `products.length`. */
    method EditProducts(text: string)
      modifies this
      ensures productsText == text
      ensures hasRequested == (old(hasRequested) && !(AllWhitespace(text) && !AllWhitespace(old(productsText))))
      ensures selectedCities == old(selectedCities) && apiKey == old(apiKey) && results == old(results)
      ensures loading == old(loading) && error == old(error) && lastUpdated == old(lastUpdated)
      ensures popover == old(popover)
    {
      hasRequested := ClearWhenNoProducts(productsText, text, hasRequested);
      productsText := text;
    }

    /** `toggleCity(code)` */
    method ToggleCity(code: string)
      modifies this
      ensures selectedCities == ToggledSelection(old(selectedCities), code)
      ensures productsText == old(productsText) && apiKey == old(apiKey) && results == old(results)
      ensures hasRequested == old(hasRequested) && loading == old(loading) && error == old(error)
      ensures lastUpdated == old(lastUpdated) && popover == old(popover)
    {
      var s := new JsSet<string>.FromSeq(selectedCities);
      if s.Has(code) {
        s.Delete(code);
      } else {
        s.Add(code);
      }
      selectedCities := s.elems;
    }

    /** `selectAllCities()` */
    method SelectAllCities()
      modifies this
      ensures selectedCities == SelectAll(old(selectedCities))
      ensures productsText == old(productsText) && apiKey == old(apiKey) && results == old(results)
      ensures hasRequested == old(hasRequested) && loading == old(loading) && error == old(error)
      ensures lastUpdated == old(lastUpdated) && popover == old(popover)
    {
      if |selectedCities| == |CITIES| {
        selectedCities := [];
      } else {
        selectedCities := CatalogCodes();
      }
    }

    /** `getPrices({ onlyProducts })`, run to completion; see `GetPricesOn`. */
    method GetPrices(onlyProducts: Option<seq<string>>, fetch: Query -> NetResult, clock: Task -> string,
                     finishTime: string)
      returns (tasks: seq<Task>)
      modifies this
      ensures productsText == old(productsText) && selectedCities == old(selectedCities)
      ensures apiKey == old(apiKey) && popover == old(popover)
      ensures apiKey == "" ==>
        && tasks == [] && !hasRequested && error
        && results == old(results) && loading == old(loading) && lastUpdated == old(lastUpdated)
      ensures apiKey != "" ==>
        var codes := SelectedCodes(selectedCities);
        && tasks == TaskList(TargetProducts(Products(productsText), onlyProducts), codes)
        && results == Run(InitialMatrix(Products(productsText), codes), tasks, Outcomes(fetch, apiKey, clock))
        && hasRequested && !loading
        && error == AnyRejected(tasks, Outcomes(fetch, apiKey, clock))
        && lastUpdated == (if error then old(lastUpdated) else finishTime)
    {
      tasks, results, hasRequested, loading, error, lastUpdated :=
        GetPricesOn(productsText, selectedCities, apiKey, onlyProducts, fetch, clock, finishTime,
                    results, loading, lastUpdated);
    }

    /** `openPopover(product, city, rect)` in a viewport `vw` wide scrolled down by `scrollY`. */
    method OpenPopover(product: string, city: string, rect: Rect, vw: real, scrollY: real)
      modifies this
      ensures popover == Opened(product, city, vw, scrollY, rect)
      ensures productsText == old(productsText) && selectedCities == old(selectedCities)
      ensures apiKey == old(apiKey) && results == old(results) && hasRequested == old(hasRequested)
      ensures loading == old(loading) && error == old(error) && lastUpdated == old(lastUpdated)
    {
      popover := Opened(product, city, vw, scrollY, rect);
    }
  }
}
