/**
 * Structural JSON equality: parsed trees, the duplicate-rejecting object hook, the comparison,
 * and the canonical trees it decides equality of.
 */
module Json {
  import opened Common
  import opened Decimals

  /** A document as written: object members in textual order, names possibly repeated. */
  datatype Text =
    | TNull
    | TBool(b: bool)
    | TInt(i: int)
    | TDecimal(d: Decimal)
    | TString(s: string)
    | TArray(items: seq<Text>)
    | TObject(members: seq<Member>)

  datatype Member = Member(name: string, value: Text)

  /** A parsed value. Integers and decimals are different types that compare as numbers. */
  datatype Json =
    | JNull
    | JBool(b: bool)
    | JInt(i: int)
    | JDecimal(d: Decimal)
    | JString(s: string)
    | JArray(items: seq<Json>)
    | JObject(fields: map<string, Json>)

  datatype ParseError = DuplicateName

  // ----- parsing hooks -----------------------------------------------------------------------

  /** Objects refuse a repeated member name, wherever it occurs in the document. */
  function Build(t: Text): Result<Json, ParseError>
    decreases t, 1
  {
    match t
    case TNull => Ok(JNull)
    case TBool(b) => Ok(JBool(b))
    case TInt(i) => Ok(JInt(i))
    case TDecimal(d) => Ok(JDecimal(d))
    case TString(s) => Ok(JString(s))
    case TArray(items) =>
      (match BuildItems(items)
       case Err(e) => Err(e)
       case Ok(values) => Ok(JArray(values)))
    case TObject(members) =>
      match BuildMembers(members)
      case Err(e) => Err(e)
      case Ok(fields) => Ok(JObject(fields))
  }

  function BuildItems(items: seq<Text>): Result<seq<Json>, ParseError>
    decreases items, 0
  {
    if items == [] then Ok([])
    else
      match (BuildItems(items[..|items| - 1]), Build(items[|items| - 1]))
      case (Ok(front), Ok(last)) => Ok(front + [last])
      case _ => Err(DuplicateName)
  }

  function BuildMembers(members: seq<Member>): Result<map<string, Json>, ParseError>
    decreases members, 0
  {
    if members == [] then Ok(map[])
    else
      var last := members[|members| - 1];
      match (BuildMembers(members[..|members| - 1]), Build(last.value))
      case (Ok(front), Ok(value)) => if last.name in front then Err(DuplicateName) else Ok(front[last.name := value])
      case _ => Err(DuplicateName)
  }

  /** The dictionary of the pairs, unless a name repeats. */
  function Hooked(pairs: seq<(string, Json)>): Result<map<string, Json>, ParseError> {
    if pairs == [] then Ok(map[])
    else
      var last := pairs[|pairs| - 1];
      match Hooked(pairs[..|pairs| - 1])
      case Err(e) => Err(e)
      case Ok(front) => if last.0 in front then Err(DuplicateName) else Ok(front[last.0 := last.1])
  }

  /** An object whose member values can be read is what the hook makes of its names and values. */
  lemma {:induction false} MembersAreHooked(members: seq<Member>, pairs: seq<(string, Json)>)
    requires |pairs| == |members|
    requires forall i :: 0 <= i < |members| ==>
               pairs[i].0 == members[i].name && Build(members[i].value) == Ok(pairs[i].1)
    ensures BuildMembers(members) == Hooked(pairs)
  {
    if members != [] { MembersAreHooked(members[..|members| - 1], pairs[..|pairs| - 1]); }
  }

  predicate DistinctPairs(pairs: seq<(string, Json)>) {
    forall i, j :: 0 <= i < j < |pairs| ==> pairs[i].0 != pairs[j].0
  }

  predicate NamedBy(pairs: seq<(string, Json)>, k: string) {
    exists i :: 0 <= i < |pairs| && pairs[i].0 == k
  }

  /** `fields` maps exactly the names of the pairs, each to its value. */
  ghost predicate IsTable(fields: map<string, Json>, pairs: seq<(string, Json)>) {
    && (forall k :: k in fields ==> NamedBy(pairs, k))
    && (forall i :: 0 <= i < |pairs| ==> pairs[i].0 in fields && fields[pairs[i].0] == pairs[i].1)
  }

  lemma TableStep(front: seq<(string, Json)>, last: (string, Json), fields: map<string, Json>)
    requires DistinctPairs(front) && IsTable(fields, front)
    ensures last.0 !in fields <==> DistinctPairs(front + [last])
    ensures last.0 !in fields ==> IsTable(fields[last.0 := last.1], front + [last])
  {
    var pairs := front + [last];
    if last.0 in fields {
      assert NamedBy(front, last.0);
      var i :| 0 <= i < |front| && front[i].0 == last.0;
      assert pairs[i].0 == pairs[|front|].0;
    } else {
      forall k | k in fields || k == last.0 ensures NamedBy(pairs, k) {
        if k == last.0 {
          assert pairs[|front|].0 == k;
        } else {
          assert NamedBy(front, k);
          var i :| 0 <= i < |front| && front[i].0 == k;
          assert pairs[i].0 == k;
        }
      }
    }
  }

  /** The hook accepts exactly pairs without a repeated name, and then maps each name to its value. */
  lemma {:induction false} HookedMeaning(pairs: seq<(string, Json)>)
    ensures Hooked(pairs).Ok? <==> DistinctPairs(pairs)
    ensures Hooked(pairs).Ok? ==> IsTable(Hooked(pairs).value, pairs)
  {
    if pairs != [] {
      var front, last := pairs[..|pairs| - 1], pairs[|pairs| - 1];
      HookedMeaning(front);
      assert pairs == front + [last];
      if Hooked(front).Ok? { TableStep(front, last, Hooked(front).value); }
    }
  }

  lemma {:induction false} HookStopsEarly(pairs: seq<(string, Json)>, n: nat)
    requires n <= |pairs| && Hooked(pairs[..n]).Err?
    ensures Hooked(pairs).Err?
  {
    if n < |pairs| {
      assert pairs[..|pairs| - 1][..n] == pairs[..n];
      HookStopsEarly(pairs[..|pairs| - 1], n);
    } else {
      assert pairs[..n] == pairs;
    }
  }

  /** The object hook: a fold over the pairs that raises at the first repeated name. */
  method ObjectHook(pairs: seq<(string, Json)>) returns (r: Result<map<string, Json>, ParseError>)
    ensures r == Hooked(pairs)
    ensures r.Ok? <==> DistinctPairs(pairs)
    ensures r.Ok? ==> IsTable(r.value, pairs)
  {
    HookedMeaning(pairs);
    var fields: map<string, Json> := map[];
    for n := 0 to |pairs|
      invariant Hooked(pairs[..n]) == Ok(fields)
    {
      assert pairs[..n + 1][..n] == pairs[..n];
      if pairs[n].0 in fields {
        HookStopsEarly(pairs, n + 1);
        assert Hooked(pairs).error.DuplicateName?;
        return Err(DuplicateName);
      }
      fields := fields[pairs[n].0 := pairs[n].1];
    }
    assert pairs[..|pairs|] == pairs;
    return Ok(fields);
  }

  // ----- the comparison ----------------------------------------------------------------------

  predicate IsNumber(j: Json) { j.JInt? || j.JDecimal? }

  function AsDecimal(j: Json): Decimal
    requires IsNumber(j)
  {
    match j
    case JInt(i) => if i < 0 then Decimal(true, -i, 0) else Decimal(false, i, 0)
    case JDecimal(d) => d
  }

  predicate JsonEqual(left: Json, right: Json)
    decreases left
  {
    if left.JBool? || right.JBool? then left == right
    else if IsNumber(left) && IsNumber(right) then EqualTo(AsDecimal(left), AsDecimal(right))
    else match (left, right)
      case (JObject(f), JObject(g)) => f.Keys == g.Keys && forall k :: k in f && k in g ==> JsonEqual(f[k], g[k])
      case (JArray(x), JArray(y)) => |x| == |y| && forall i :: 0 <= i < |x| && i < |y| ==> JsonEqual(x[i], y[i])
      case (JNull, JNull) => true
      case (JString(s), JString(t)) => s == t
      case _ => false
  }

  // ----- canonical trees ---------------------------------------------------------------------

  /** Objects as maps, arrays in order, numbers as rationals, booleans apart from numbers. */
  datatype Canonical =
    | CNull
    | CBool(b: bool)
    | CNumber(value: real)
    | CString(s: string)
    | CArray(items: seq<Canonical>)
    | CObject(fields: map<string, Canonical>)

  function Canon(j: Json): Canonical
    decreases j
  {
    match j
    case JNull => CNull
    case JBool(b) => CBool(b)
    case JInt(i) => CNumber(i as real)
    case JDecimal(d) => CNumber(Value(d))
    case JString(s) => CString(s)
    case JArray(items) => CArray(seq(|items|, i requires 0 <= i < |items| => Canon(items[i])))
    case JObject(fields) => CObject(map k | k in fields :: Canon(fields[k]))
  }

  lemma {:induction false} NumberValue(j: Json)
    requires IsNumber(j)
    ensures Canon(j) == CNumber(Value(AsDecimal(j)))
  {
  }

  /** The comparison decides equality of canonical trees. */
  lemma {:induction false} EqualityIsCanonical(left: Json, right: Json)
    ensures JsonEqual(left, right) <==> Canon(left) == Canon(right)
    decreases left
  {
    if IsNumber(left) && IsNumber(right) {
      NumberValue(left);
      NumberValue(right);
      ComparisonIsExact(AsDecimal(left), AsDecimal(right));
    } else if left.JArray? && right.JArray? {
      ArraysCanonical(left, right);
    } else if left.JObject? && right.JObject? {
      ObjectsCanonical(left, right);
    }
  }

  lemma {:induction false} ArraysCanonical(left: Json, right: Json)
    requires left.JArray? && right.JArray?
    ensures JsonEqual(left, right) <==> Canon(left) == Canon(right)
    decreases left, 0
  {
    var x, y := left.items, right.items;
    forall i | 0 <= i < |x| && i < |y| ensures JsonEqual(x[i], y[i]) <==> Canon(x[i]) == Canon(y[i]) {
      EqualityIsCanonical(x[i], y[i]);
    }
    assert |Canon(left).items| == |x| && |Canon(right).items| == |y|;
    assert forall i :: 0 <= i < |x| ==> Canon(left).items[i] == Canon(x[i]);
    assert forall i :: 0 <= i < |y| ==> Canon(right).items[i] == Canon(y[i]);
  }

  lemma {:induction false} ObjectsCanonical(left: Json, right: Json)
    requires left.JObject? && right.JObject?
    ensures JsonEqual(left, right) <==> Canon(left) == Canon(right)
    decreases left, 0
  {
    var f, g := left.fields, right.fields;
    forall k | k in f && k in g ensures JsonEqual(f[k], g[k]) <==> Canon(f[k]) == Canon(g[k]) {
      EqualityIsCanonical(f[k], g[k]);
    }
    var c, d := Canon(left).fields, Canon(right).fields;
    assert c.Keys == f.Keys && d.Keys == g.Keys;
    assert forall k :: k in f ==> c[k] == Canon(f[k]);
    assert forall k :: k in g ==> d[k] == Canon(g[k]);
  }

  /** JSON equality is an equivalence relation. */
  lemma {:induction false} EqualityIsEquivalence(a: Json, b: Json, c: Json)
    ensures JsonEqual(a, a)
    ensures JsonEqual(a, b) ==> JsonEqual(b, a)
    ensures JsonEqual(a, b) && JsonEqual(b, c) ==> JsonEqual(a, c)
  {
    EqualityIsCanonical(a, a);
    EqualityIsCanonical(a, b);
    EqualityIsCanonical(b, a);
    EqualityIsCanonical(b, c);
    EqualityIsCanonical(a, c);
  }

  // ----- member order ------------------------------------------------------------------------

  /** `p` and `q` are permutations of 0..n-1, each the inverse of the other. */
  ghost predicate Inverse(p: seq<nat>, q: seq<nat>, n: nat) {
    && |p| == |q| == n
    && (forall i :: 0 <= i < n ==> p[i] < n && q[p[i]] == i)
    && (forall k :: 0 <= k < n ==> q[k] < n && p[q[k]] == k)
  }

  /** `b` is `a` with the members of any objects, at any depth, written in another order. */
  ghost predicate Reordered(a: Text, b: Text)
    decreases a
  {
    match (a, b)
    case (TArray(x), TArray(y)) => |x| == |y| && forall i :: 0 <= i < |x| && i < |y| ==> Reordered(x[i], y[i])
    case (TObject(m), TObject(n)) =>
      && |m| == |n|
      && (exists p, q :: Inverse(p, q, |m|)
           && (forall i :: 0 <= i < |m| && i < |n| && p[i] < |m| ==>
                 n[i].name == m[p[i]].name && Reordered(m[p[i]].value, n[i].value)))
    case _ => a == b
  }

  ghost predicate DistinctNames(members: seq<Member>) {
    forall i, j :: 0 <= i < j < |members| ==> members[i].name != members[j].name
  }

  /** `fields` is the dictionary of `members`. */
  ghost predicate IsDictionary(fields: map<string, Json>, members: seq<Member>) {
    && (forall k :: k in fields ==> exists i :: 0 <= i < |members| && members[i].name == k)
    && (forall i :: 0 <= i < |members| ==>
          members[i].name in fields && Build(members[i].value) == Ok(fields[members[i].name]))
  }

  ghost predicate AllBuild(members: seq<Member>) {
    forall i :: 0 <= i < |members| ==> Build(members[i].value).Ok?
  }

  lemma {:induction false} MembersMeaning(members: seq<Member>)
    ensures BuildMembers(members).Ok? <==> DistinctNames(members) && AllBuild(members)
    ensures BuildMembers(members).Ok? ==> IsDictionary(BuildMembers(members).value, members)
  {
    if members != [] {
      var front, last := members[..|members| - 1], members[|members| - 1];
      MembersMeaning(front);
      assert AllBuild(members) <==> AllBuild(front) && Build(last.value).Ok?;
      if BuildMembers(front).Ok? && Build(last.value).Ok? {
        MembersStep(front, last, BuildMembers(front).value);
        assert members == front + [last];
      }
    }
  }

  lemma MembersStep(front: seq<Member>, last: Member, fields: map<string, Json>)
    requires DistinctNames(front) && IsDictionary(fields, front) && Build(last.value).Ok?
    ensures last.name !in fields <==> DistinctNames(front + [last])
    ensures last.name !in fields ==> IsDictionary(fields[last.name := Build(last.value).value], front + [last])
  {
    var members := front + [last];
    if last.name in fields {
      var i :| 0 <= i < |front| && front[i].name == last.name;
      assert members[i].name == members[|front|].name;
    } else {
      var longer := fields[last.name := Build(last.value).value];
      forall k | k in longer ensures exists i :: 0 <= i < |members| && members[i].name == k {
        if k == last.name {
          assert members[|front|].name == k;
        } else {
          var i :| 0 <= i < |front| && front[i].name == k;
          assert members[i].name == k;
        }
      }
    }
  }

  lemma {:induction false} ItemsMeaning(items: seq<Text>)
    ensures BuildItems(items).Ok? <==> forall i :: 0 <= i < |items| ==> Build(items[i]).Ok?
    ensures BuildItems(items).Ok? ==>
              && |BuildItems(items).value| == |items|
              && forall i :: 0 <= i < |items| ==> Build(items[i]) == Ok(BuildItems(items).value[i])
  {
    if items != [] { ItemsMeaning(items[..|items| - 1]); }
  }

  /** The canonical tree of a document, if it has no repeated name. */
  function Meaning(t: Text): Result<Canonical, ParseError> {
    match Build(t)
    case Err(e) => Err(e)
    case Ok(j) => Ok(Canon(j))
  }

  lemma ArrayMeaning(x: seq<Text>, y: seq<Text>)
    requires |x| == |y| && forall i :: 0 <= i < |x| ==> Meaning(x[i]) == Meaning(y[i])
    ensures Meaning(TArray(x)) == Meaning(TArray(y))
  {
    ItemsMeaning(x);
    ItemsMeaning(y);
    assert forall i :: 0 <= i < |x| ==> Build(x[i]).Ok? == Build(y[i]).Ok?;
    if BuildItems(x).Ok? {
      var a, b := BuildItems(x).value, BuildItems(y).value;
      assert forall i :: 0 <= i < |x| ==> Canon(a[i]) == Canon(b[i]);
      assert Canon(JArray(a)) == Canon(JArray(b));
    }
  }

  /** Members of `n` are the members of `m`, permuted by `p`, with equal meanings. */
  ghost predicate Permuted(m: seq<Member>, n: seq<Member>, p: seq<nat>, q: seq<nat>) {
    && |m| == |n| && Inverse(p, q, |m|)
    && forall i :: 0 <= i < |n| ==> n[i].name == m[p[i]].name && Meaning(n[i].value) == Meaning(m[p[i]].value)
  }

  lemma PermutedBack(m: seq<Member>, n: seq<Member>, p: seq<nat>, q: seq<nat>)
    requires Permuted(m, n, p, q)
    ensures Permuted(n, m, q, p)
  {
  }

  lemma PermutedAcceptance(m: seq<Member>, n: seq<Member>, p: seq<nat>, q: seq<nat>)
    requires Permuted(m, n, p, q) && DistinctNames(m) && AllBuild(m)
    ensures DistinctNames(n) && AllBuild(n)
  {
  }

  lemma PermutedFields(m: seq<Member>, n: seq<Member>, p: seq<nat>, q: seq<nat>, f: map<string, Json>,
                       g: map<string, Json>)
    requires Permuted(m, n, p, q) && IsDictionary(f, m) && IsDictionary(g, n)
    ensures forall k :: k in g ==> k in f && Canon(f[k]) == Canon(g[k])
  {
  }

  lemma ObjectMeaning(m: seq<Member>, n: seq<Member>, p: seq<nat>, q: seq<nat>)
    requires Permuted(m, n, p, q)
    ensures Meaning(TObject(m)) == Meaning(TObject(n))
  {
    MembersMeaning(m);
    MembersMeaning(n);
    PermutedBack(m, n, p, q);
    if BuildMembers(m).Ok? { PermutedAcceptance(m, n, p, q); }
    if BuildMembers(n).Ok? { PermutedAcceptance(n, m, q, p); }
    if BuildMembers(m).Ok? {
      var f, g := BuildMembers(m).value, BuildMembers(n).value;
      PermutedFields(m, n, p, q, f, g);
      PermutedFields(n, m, q, p, g, f);
      SameFields(f, g);
    }
  }

  lemma SameFields(f: map<string, Json>, g: map<string, Json>)
    requires forall k :: k in g ==> k in f && Canon(f[k]) == Canon(g[k])
    requires forall k :: k in f ==> k in g
    ensures Canon(JObject(f)) == Canon(JObject(g))
  {
  }

  /**
   * Reordering members at any depth changes neither whether the document is accepted nor what
   * it means.
   */
  lemma {:induction false} ReorderingKeepsMeaning(a: Text, b: Text)
    requires Reordered(a, b)
    ensures Meaning(a) == Meaning(b)
    decreases a
  {
    match (a, b) {
      case (TArray(x), TArray(y)) =>
        forall i | 0 <= i < |x| ensures Meaning(x[i]) == Meaning(y[i]) {
          ReorderingKeepsMeaning(x[i], y[i]);
        }
        ArrayMeaning(x, y);
      case (TObject(m), TObject(n)) =>
        var p, q :| Inverse(p, q, |m|)
           && (forall i :: 0 <= i < |m| && i < |n| && p[i] < |m| ==>
                 n[i].name == m[p[i]].name && Reordered(m[p[i]].value, n[i].value));
        forall i | 0 <= i < |n| ensures n[i].name == m[p[i]].name && Meaning(n[i].value) == Meaning(m[p[i]].value) {
          ReorderingKeepsMeaning(m[p[i]].value, n[i].value);
        }
        ObjectMeaning(m, n, p, q);
      case _ =>
    }
  }

  /** So a reordered answer still matches, and still matches everything it matched before. */
  lemma {:induction false} ReorderedAnswerMatches(expected: Json, a: Text, b: Text)
    requires Reordered(a, b) && Build(a).Ok?
    ensures Build(b).Ok?
    ensures JsonEqual(Build(a).value, Build(b).value)
    ensures JsonEqual(expected, Build(a).value) <==> JsonEqual(expected, Build(b).value)
  {
    ReorderingKeepsMeaning(a, b);
    EqualityIsCanonical(Build(a).value, Build(b).value);
    EqualityIsCanonical(expected, Build(a).value);
    EqualityIsCanonical(expected, Build(b).value);
  }

  /** No object, at any depth, has two members of the same name. */
  ghost predicate NoRepeats(t: Text)
    decreases t
  {
    match t
    case TArray(items) => forall i :: 0 <= i < |items| ==> NoRepeats(items[i])
    case TObject(members) => DistinctNames(members) && forall i :: 0 <= i < |members| ==> NoRepeats(members[i].value)
    case _ => true
  }

  /** A document is readable exactly when no member name repeats in any of its objects. */
  lemma {:induction false} ReadableExactlyWithoutRepeats(t: Text)
    ensures Build(t).Ok? <==> NoRepeats(t)
    decreases t
  {
    match t {
      case TArray(items) =>
        ItemsMeaning(items);
        forall i | 0 <= i < |items| ensures Build(items[i]).Ok? <==> NoRepeats(items[i]) {
          ReadableExactlyWithoutRepeats(items[i]);
        }
      case TObject(members) =>
        MembersMeaning(members);
        forall i | 0 <= i < |members| ensures Build(members[i].value).Ok? <==> NoRepeats(members[i].value) {
          ReadableExactlyWithoutRepeats(members[i].value);
        }
      case _ =>
    }
  }

  // ----- what a document denotes -------------------------------------------------------------

  /** The document denotes the canonical tree: read directly off the text, without building a value. */
  ghost predicate Denotes(t: Text, c: Canonical)
    decreases t, 1
  {
    match t
    case TNull => c == CNull
    case TBool(b) => c == CBool(b)
    case TInt(i) => c == CNumber(i as real)
    case TDecimal(d) => c == CNumber(Value(d))
    case TString(s) => c == CString(s)
    case TArray(items) =>
      && c.CArray? && |c.items| == |items|
      && forall i :: 0 <= i < |items| && i < |c.items| ==> Denotes(items[i], c.items[i])
    case TObject(members) => c.CObject? && DistinctNames(members) && FieldsDenoted(members, c.fields)
  }

  /** The fields are named by the members, and each is what its member denotes. */
  ghost predicate FieldsDenoted(members: seq<Member>, f: map<string, Canonical>)
    decreases members, 0
  {
    && (forall k :: k in f ==> exists i :: 0 <= i < |members| && members[i].name == k)
    && forall i :: 0 <= i < |members| ==> members[i].name in f && Denotes(members[i].value, f[members[i].name])
  }

  /** A document is read as the tree it denotes. */
  lemma {:induction false} BuildDenotes(t: Text)
    requires Build(t).Ok?
    ensures Denotes(t, Canon(Build(t).value))
    decreases t, 1
  {
    match t {
      case TArray(items) => ItemsDenote(items);
      case TObject(members) => MembersDenote(members);
      case _ =>
    }
  }

  lemma {:induction false} ItemsDenote(items: seq<Text>)
    requires BuildItems(items).Ok?
    ensures Denotes(TArray(items), Canon(JArray(BuildItems(items).value)))
    decreases items, 0
  {
    ItemsMeaning(items);
    var values := BuildItems(items).value;
    var c := Canon(JArray(values));
    forall i | 0 <= i < |items| ensures Denotes(items[i], c.items[i]) {
      BuildDenotes(items[i]);
      assert c.items[i] == Canon(values[i]);
    }
  }

  lemma {:induction false} MembersDenote(members: seq<Member>)
    requires BuildMembers(members).Ok?
    ensures Denotes(TObject(members), Canon(JObject(BuildMembers(members).value)))
    decreases members, 0
  {
    MembersMeaning(members);
    var fields := BuildMembers(members).value;
    var c := Canon(JObject(fields));
    assert c.fields.Keys == fields.Keys;
    forall i | 0 <= i < |members|
      ensures members[i].name in c.fields && Denotes(members[i].value, c.fields[members[i].name])
    {
      BuildDenotes(members[i].value);
      assert c.fields[members[i].name] == Canon(fields[members[i].name]);
    }
  }

  /** What denotes a tree has no repeated name. */
  lemma {:induction false} DenotingIsReadable(t: Text, c: Canonical)
    requires Denotes(t, c)
    ensures NoRepeats(t)
    decreases t
  {
    match t {
      case TArray(items) =>
        forall i | 0 <= i < |items| ensures NoRepeats(items[i]) {
          DenotingIsReadable(items[i], c.items[i]);
        }
      case TObject(members) =>
        forall i | 0 <= i < |members| ensures NoRepeats(members[i].value) {
          DenotingIsReadable(members[i].value, c.fields[members[i].name]);
        }
      case _ =>
    }
  }

  /** A document denotes at most one tree. */
  lemma {:induction false} DenotesOnce(t: Text, c: Canonical, d: Canonical)
    requires Denotes(t, c) && Denotes(t, d)
    ensures c == d
    decreases t, 1
  {
    match t {
      case TArray(items) => ItemsDenoteOnce(items, c.items, d.items);
      case TObject(members) => MembersDenoteOnce(members, c.fields, d.fields);
      case _ =>
    }
  }

  lemma {:induction false} ItemsDenoteOnce(items: seq<Text>, x: seq<Canonical>, y: seq<Canonical>)
    requires |x| == |y| == |items|
    requires forall i :: 0 <= i < |items| ==> Denotes(items[i], x[i]) && Denotes(items[i], y[i])
    ensures x == y
    decreases items, 0
  {
    forall i | 0 <= i < |items| ensures x[i] == y[i] {
      DenotesOnce(items[i], x[i], y[i]);
    }
  }

  lemma {:induction false} MembersDenoteOnce(members: seq<Member>, f: map<string, Canonical>, g: map<string, Canonical>)
    requires FieldsDenoted(members, f) && FieldsDenoted(members, g)
    ensures f == g
    decreases members, 0
  {
    forall k | k in f || k in g ensures k in f && k in g && f[k] == g[k] {
      var i :| 0 <= i < |members| && members[i].name == k;
      DenotesOnce(members[i].value, f[k], g[k]);
    }
  }
}
