/**
 * The question-catalog queries of src/bot/helpers/fields.py. Each query in the
 * source is one SELECT ... ORDER BY ... LIMIT 1; here each is a function over the
 * field and answer tables. Where several rows tie under the ordering the database
 * may return any of them; the model returns the earliest one in table order.
 */
module Fields {
  import opened Wrappers
  import opened CustomTypes
  import opened DbModel

  /** `scalar_one` found no row. */
  datatype QueryError = NoResultFound

  /** The field lies in a branch whose key is `key` (the join with the branch table). */
  predicate InBranchWithKey(branches: seq<FieldBranch>, key: string, f: Field) {
    exists b :: b in branches && b.key == key && f.branchId == b.id
  }

  /** `g` is a candidate for the question after `curr`: same branch, later, not inactive. */
  predicate FollowsInBranch(curr: Field, g: Field) {
    g.branchId == curr.branchId && g.orderPlace > curr.orderPlace && g.status != FieldStatus.Inactive
  }

  /** The rows of the field table in a branch with key `key`, in table order. */
  function StartBranchFields(branches: seq<FieldBranch>, key: string, fields: seq<Field>): (r: seq<Field>)
    ensures forall g :: g in r <==> g in fields && InBranchWithKey(branches, key, g)
  {
    if fields == [] then []
    else if InBranchWithKey(branches, key, fields[0]) then [fields[0]] + StartBranchFields(branches, key, fields[1..])
    else StartBranchFields(branches, key, fields[1..])
  }

  /** The rows of the field table that may follow `curr`, in table order. */
  function Following(fields: seq<Field>, curr: Field): (r: seq<Field>)
    ensures forall g :: g in r <==> g in fields && FollowsInBranch(curr, g)
    ensures |r| <= |fields|
  {
    if fields == [] then []
    else if FollowsInBranch(curr, fields[0]) then [fields[0]] + Following(fields[1..], curr)
    else Following(fields[1..], curr)
  }

  /** ORDER BY order_place ASC LIMIT 1: the first row with the least order place. */
  function LeastOrdered(fs: seq<Field>): (r: Option<Field>)
    ensures r.None? <==> fs == []
    ensures r.Some? ==> r.value in fs && forall g :: g in fs ==> r.value.orderPlace <= g.orderPlace
  {
    if fs == [] then None
    else match LeastOrdered(fs[1..])
      case None => Some(fs[0])
      case Some(m) => if m.orderPlace < fs[0].orderPlace then Some(m) else Some(fs[0])
  }

  /**
   * get_first_field_question: a field of the configured start branch with the least
   * order place. No status filter applies, so the result may be an inactive field;
   * `scalar_one` makes an empty branch an error.
   */
  function FirstFieldQuestion(c: Catalog, startBranch: string): (r: Result<Field, QueryError>)
    ensures r.Success? ==> r.value in c.fields && InBranchWithKey(c.branches, startBranch, r.value)
    ensures r.Success? ==> forall g :: g in c.fields && InBranchWithKey(c.branches, startBranch, g) ==>
                                         r.value.orderPlace <= g.orderPlace
    ensures r.Failure? <==> forall g :: g in c.fields ==> !InBranchWithKey(c.branches, startBranch, g)
  {
    var candidates := StartBranchFields(c.branches, startBranch, c.fields);
    match LeastOrdered(candidates)
    case None => Failure(NoResultFound)
    case Some(f) => Success(f)
  }

  /**
   * get_next_field_question_in_branch: the non-inactive field of the same branch with
   * the least order place strictly above the current one, or None when there is none.
   */
  function NextFieldInBranch(fields: seq<Field>, curr: Field): (r: Option<Field>)
    ensures r.Some? ==> r.value in fields && FollowsInBranch(curr, r.value)
    ensures r.Some? ==> forall g :: g in fields && FollowsInBranch(curr, g) ==> r.value.orderPlace <= g.orderPlace
    ensures r.None? <==> forall g :: g in fields ==> !FollowsInBranch(curr, g)
  {
    LeastOrdered(Following(fields, curr))
  }

  /** Whatever follows a later field of the branch also follows the earlier one. */
  lemma {:induction false} FollowingSubsumed(fields: seq<Field>, curr: Field, next: Field)
    requires FollowsInBranch(curr, next)
    ensures |Following(fields, next)| <= |Following(fields, curr)|
  {
    if fields != [] {
      FollowingSubsumed(fields[1..], curr, next);
    }
  }

  /** Stepping to a candidate strictly shrinks the set of candidates. */
  lemma {:induction false} FollowingShrinks(fields: seq<Field>, curr: Field, next: Field)
    requires next in fields && FollowsInBranch(curr, next)
    ensures |Following(fields, next)| < |Following(fields, curr)|
  {
    if fields[0] == next {
      FollowingSubsumed(fields[1..], curr, next);
    } else {
      FollowingShrinks(fields[1..], curr, next);
    }
  }

  /**
   * The questions visited by answering `curr` and then every question the
   * next-field query hands out, until it returns None.
   */
  function Walk(fields: seq<Field>, curr: Field): (w: seq<Field>)
    ensures forall i :: 0 <= i < |w| ==> w[i] in fields && FollowsInBranch(curr, w[i])
    ensures forall i, j :: 0 <= i < j < |w| ==> w[i].orderPlace < w[j].orderPlace
    ensures |w| <= |Following(fields, curr)|
    decreases |Following(fields, curr)|
  {
    match NextFieldInBranch(fields, curr)
    case None => []
    case Some(n) =>
      FollowingShrinks(fields, curr, n);
      [n] + Walk(fields, n)
  }

  /** No two fields of one branch share an order place (assumed, not enforced by the schema). */
  ghost predicate OrderPlacesUnique(fields: seq<Field>) {
    forall f, g :: f in fields && g in fields && f.branchId == g.branchId && f.orderPlace == g.orderPlace ==> f == g
  }

  /**
   * With distinct order places, the walk from `curr` reaches every non-inactive
   * field after it in its branch; as the walk is strictly increasing, each exactly once.
   */
  lemma {:induction false} WalkComplete(fields: seq<Field>, curr: Field, g: Field)
    requires OrderPlacesUnique(fields)
    requires g in fields && FollowsInBranch(curr, g)
    ensures g in Walk(fields, curr)
    decreases |Following(fields, curr)|
  {
    var n := NextFieldInBranch(fields, curr).value;
    FollowingShrinks(fields, curr, n);
    if n != g {
      assert n.orderPlace < g.orderPlace;
      WalkComplete(fields, n, g);
    }
  }

  /**
   * Registration from the first field of the start branch visits, besides that
   * field, every non-inactive field of its branch, in increasing order place.
   */
  lemma RegistrationVisitsBranch(c: Catalog, startBranch: string, g: Field)
    requires OrderPlacesUnique(c.fields)
    requires FirstFieldQuestion(c, startBranch).Success?
    requires g in c.fields && g.status != FieldStatus.Inactive
    requires g.branchId == FirstFieldQuestion(c, startBranch).value.branchId
    ensures var first := FirstFieldQuestion(c, startBranch).value;
            g == first || g in Walk(c.fields, first)
  {
    var first := FirstFieldQuestion(c, startBranch).value;
    var b :| b in c.branches && b.key == startBranch && first.branchId == b.id;
    assert InBranchWithKey(c.branches, startBranch, g);
    if g != first {
      WalkComplete(c.fields, first, g);
    }
  }

  /** The field with id `fieldId` has key `key`. */
  predicate FieldIdHasKey(fields: seq<Field>, fieldId: int, key: string) {
    exists f :: f in fields && f.id == fieldId && f.key == key
  }

  /**
   * get_user_field_value_by_key: some value this user recorded on a field with
   * this key, or None. LIMIT 1 without ORDER BY leaves the choice to the database.
   */
  function UserFieldValueByKey(fields: seq<Field>, values: seq<UserFieldValue>, userId: int, key: string): (r: Option<string>)
    ensures r.Some? ==> exists v :: v in values && v.userId == userId && FieldIdHasKey(fields, v.fieldId, key) && v.value == r.value
    ensures r.None? <==> forall v :: v in values && v.userId == userId ==> !FieldIdHasKey(fields, v.fieldId, key)
  {
    if values == [] then None
    else if values[0].userId == userId && FieldIdHasKey(fields, values[0].fieldId, key) then Some(values[0].value)
    else UserFieldValueByKey(fields, values[1..], userId, key)
  }

  /** The rows of `values` that belong to user `userId`, in table order. */
  function RowsOf(values: seq<UserFieldValue>, userId: int): (r: seq<UserFieldValue>)
    ensures forall v :: v in r <==> v in values && v.userId == userId
  {
    if values == [] then []
    else if values[0].userId == userId then [values[0]] + RowsOf(values[1..], userId)
    else RowsOf(values[1..], userId)
  }

  /** Rows of other users never influence the lookup. */
  lemma {:induction false} ValueByKeyIgnoresOtherUsers(fields: seq<Field>, values: seq<UserFieldValue>, userId: int, key: string)
    ensures UserFieldValueByKey(fields, values, userId, key) == UserFieldValueByKey(fields, RowsOf(values, userId), userId, key)
  {
    if values != [] {
      ValueByKeyIgnoresOtherUsers(fields, values[1..], userId, key);
      if values[0].userId == userId {
        assert ([values[0]] + RowsOf(values[1..], userId))[1..] == RowsOf(values[1..], userId);
      }
    }
  }

  /** With unique keys, the lookup reads only rows on the one field carrying that key. */
  lemma ValueByKeyReadsKeyedField(fields: seq<Field>, values: seq<UserFieldValue>, userId: int, f: Field)
    requires FieldKeysUnique(fields) && FieldIdsUnique(fields) && f in fields
    ensures UserFieldValueByKey(fields, values, userId, f.key).Some? <==>
            exists v :: v in values && v.userId == userId && v.fieldId == f.id
  {
    FieldByKeyFinds(fields, f);
    if UserFieldValueByKey(fields, values, userId, f.key).Some? {
      var v :| v in values && v.userId == userId && FieldIdHasKey(fields, v.fieldId, f.key);
      var g :| g in fields && g.id == v.fieldId && g.key == f.key;
      assert g == f;
    } else {
      forall v | v in values && v.userId == userId ensures v.fieldId != f.id {
        assert !FieldIdHasKey(fields, v.fieldId, f.key);
      }
    }
  }

  /** The first-field query does not skip inactive fields, unlike the next-field query. */
  lemma FirstFieldMayBeInactive()
    ensures var a := NewField(1, "a", 7, 1);
            var c := Catalog([FieldBranch(7, "main")], [a]);
            FirstFieldQuestion(c, "main") == Success(a) && NextFieldInBranch(c.fields, a.(orderPlace := 0)).None?
  {
    var a := NewField(1, "a", 7, 1);
    var c := Catalog([FieldBranch(7, "main")], [a]);
    assert InBranchWithKey(c.branches, "main", a);
  }
}
