/** The public vocabulary of the query compiler: values, requests, plans and violations. */
module Types {
  import opened Text

  const MAX_INT: int := 0x7FFF_FFFF_FFFF_FFFF

  /** Go's int on a 64-bit platform. Every operation on it is checked not to overflow. */
  newtype Int64 = x: int | -MAX_INT - 1 <= x <= MAX_INT

  // ---------------------------------------------------------------- values

  /** TypeUnset is the type of Go's zero Value, which FloatValue returns for NaN and infinities. */
  datatype ValueType =
    TypeString | TypeInt | TypeUint | TypeFloat | TypeBool | TypeTime | TypeBytes | TypeNull | TypeUnset

  datatype Value = Value(kind: ValueType, text: string)

  predicate ValidType(t: ValueType) {
    t != TypeNull && t != TypeUnset
  }

  function TypeText(t: ValueType): string {
    match t
    case TypeString => "string"
    case TypeInt => "int"
    case TypeUint => "uint"
    case TypeFloat => "float"
    case TypeBool => "bool"
    case TypeTime => "time"
    case TypeBytes => "bytes"
    case TypeNull => "null"
    case TypeUnset => ""
  }

  // ---------------------------------------------------------------- filters

  datatype OperatorSyntax =
    | OpEqual | OpNotEqual | OpLess | OpLessOrEqual | OpGreater | OpGreaterOrEqual
    | OpIn | OpNotIn | OpBetween | OpIsNull | OpContains | OpStartsWith | OpEndsWith
    | OpUnknown(spelling: string)

  function OperatorText(op: OperatorSyntax): string {
    match op
    case OpEqual => "eq"
    case OpNotEqual => "neq"
    case OpLess => "lt"
    case OpLessOrEqual => "lte"
    case OpGreater => "gt"
    case OpGreaterOrEqual => "gte"
    case OpIn => "in"
    case OpNotIn => "not_in"
    case OpBetween => "between"
    case OpIsNull => "is_null"
    case OpContains => "contains"
    case OpStartsWith => "starts_with"
    case OpEndsWith => "ends_with"
    case OpUnknown(spelling) => spelling
  }

  const KNOWN_OPERATORS: seq<OperatorSyntax> :=
    [OpEqual, OpNotEqual, OpLess, OpLessOrEqual, OpGreater, OpGreaterOrEqual,
     OpIn, OpNotIn, OpBetween, OpIsNull, OpContains, OpStartsWith, OpEndsWith]

  predicate KnownSpelling(s: string) {
    exists k :: 0 <= k < |KNOWN_OPERATORS| && OperatorText(KNOWN_OPERATORS[k]) == s
  }

  /** An operator string; OpUnknown never respells a declared operator. */
  type Operator = op: OperatorSyntax | op.OpUnknown? ==> !KnownSpelling(op.spelling)
    witness OpEqual

  datatype Logic = LogicAnd | LogicOr | LogicNot | LogicUnknown(spelling: string)

  datatype Predicate = Predicate(name: string, operator: Operator, values: seq<Value>)

  datatype FilterExpr = FilterExpr(leaf: Option<Predicate>, logic: Logic, children: seq<FilterExpr>)

  // ---------------------------------------------------------------- sorts, pages and cursors

  datatype Direction = Ascending | Descending | DirectionUnknown(spelling: string)

  datatype NullOrder = NullsUnset | NullsFirst | NullsLast | NullsUnknown(spelling: string)

  predicate ValidDirection(d: Direction) { d == Ascending || d == Descending }

  predicate ValidNulls(n: NullOrder) { n == NullsUnset || n == NullsFirst || n == NullsLast }

  datatype SortTerm = SortTerm(name: string, direction: Direction, nulls: NullOrder)

  datatype PageMode = PageUnset | PageNone | PageCursor | PageOffset | PageUnknown(spelling: string)

  datatype PageRequest = PageRequest(mode: PageMode, size: int, after: string, before: string, offset: int)

  datatype CursorDirection = Forward | Backward | CursorDirectionUnknown(spelling: string)

  datatype CursorState = CursorState(direction: CursorDirection, positions: seq<Value>, policy: string)

  // ---------------------------------------------------------------- requests and plans

  datatype Request = Request(
    schemaRevision: Option<string>,
    fields: Option<seq<string>>,
    includes: Option<seq<string>>,
    filter: Option<FilterExpr>,
    sorts: Option<seq<SortTerm>>,
    page: PageRequest)

  datatype Constraint = Constraint(name: string, value: Value, guarded: bool)

  /** What a compiled plan reports through its accessors. */
  datatype PlanData = PlanData(
    resource: string,
    revision: string,
    responseFields: seq<string>,
    executionFields: seq<string>,
    includes: seq<string>,
    filter: Option<FilterExpr>,
    constraints: seq<Constraint>,
    sorts: seq<SortTerm>,
    page: PageRequest,
    cursor: Option<CursorState>,
    cost: int)

  // ---------------------------------------------------------------- violations

  datatype ErrorCode =
    | CodeInvalidElement | CodeUnsupported | CodeConflict | CodeAuthorization
    | CodeCostLimit | CodeCursorFailure | CodeVersionMismatch | CodeLimitExceeded

  datatype Violation = Violation(code: ErrorCode, path: string)

  // ---------------------------------------------------------------- application callbacks

  datatype CapabilityKind = CapabilityField | CapabilityFilter | CapabilitySort | CapabilityRelationship

  datatype Capability = Capability(kind: CapabilityKind, name: string)

  /** One call the compiler made into application code. */
  datatype Callback =
    | Asked(capability: Capability)
    | Decoded(token: string, revision: string, sorts: seq<SortTerm>)

  /** The request-scoped policy. The callbacks are pure here; None is Go's nil. */
  datatype CompileOptions = CompileOptions(
    authorize: Option<Capability -> bool>,
    constraints: seq<Constraint>,
    decoder: Option<(string, string, seq<SortTerm>) -> Option<CursorState>>)

  predicate Permits(options: CompileOptions, kind: CapabilityKind, name: string) {
    options.authorize.None? || options.authorize.value(Capability(kind, name))
  }

  /** The calls made to learn Permits: none when there is no authorizer. */
  function Asking(options: CompileOptions, kind: CapabilityKind, name: string): seq<Callback> {
    if options.authorize.None? then [] else [Asked(Capability(kind, name))]
  }

  // ---------------------------------------------------------------- lists

  ghost predicate Distinct<T>(s: seq<T>) {
    forall i, j :: 0 <= i < j < |s| ==> s[i] != s[j]
  }

  lemma DistinctConcat<T>(a: seq<T>, b: seq<T>)
    ensures Distinct(a + b) <==> Distinct(a) && Distinct(b) && forall x <- a :: x !in b
  {
    var c := a + b;
    if Distinct(c) {
      forall i, j | 0 <= i < j < |a| ensures a[i] != a[j] { assert c[i] == a[i] && c[j] == a[j]; }
      forall i, j | 0 <= i < j < |b| ensures b[i] != b[j] {
        assert c[|a| + i] == b[i] && c[|a| + j] == b[j];
      }
      forall i, j | 0 <= i < |a| && 0 <= j < |b| ensures a[i] != b[j] {
        assert c[i] == a[i] && c[|a| + j] == b[j];
      }
    }
    if Distinct(a) && Distinct(b) && forall x <- a :: x !in b {
      forall i, j | 0 <= i < j < |c| ensures c[i] != c[j] {
        if i < |a| {
          assert c[i] == a[i] && a[i] !in b && a[i] in a;
          if j < |a| { assert c[j] == a[j]; } else { assert c[j] == b[j - |a|]; }
        } else {
          assert c[i] == b[i - |a|] && c[j] == b[j - |a|];
        }
      }
    }
  }

  /** One more element keeps a list distinct exactly when it is new. */
  lemma DistinctNext<T>(s: seq<T>, k: nat)
    requires k < |s|
    ensures Distinct(s[..k + 1]) <==> Distinct(s[..k]) && s[k] !in s[..k]
    ensures k == 0 ==> Distinct(s[..0])
  {
    assert s[..k + 1] == s[..k] + [s[k]];
    DistinctConcat(s[..k], [s[k]]);
  }

  /** A path such as "fields[3]". */
  function Indexed(prefix: string, index: nat): string {
    prefix + "[" + Decimal(index) + "]"
  }
}
