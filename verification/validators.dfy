/** Input validators of src/common/validators.ts. Their arguments are typed
    `unknown` in the source, so they are modelled over a JavaScript value. */
module Validators {
  import opened Wrappers
  import opened Domain

  /** A JavaScript number: finite, NaN or one of the infinities. */
  datatype JsNumber = Finite(x: real) | NaN | PositiveInfinity | NegativeInfinity

  /** A JavaScript value as far as `typeof` and `===` can tell it apart. */
  datatype Value = Undefined | Null | Bool(b: bool) | Num(n: JsNumber) | Str(s: string) | Object

  /** `isPositiveInteger`: a number, `Number.isInteger`, and positive. */
  predicate IsPositiveInteger(v: Value) {
    v.Num? && v.n.Finite? && v.n.x == v.n.x.Floor as real && v.n.x > 0.0
  }

  /** The JavaScript number with the integer value `n`. */
  function IntValue(n: int): Value {
    Num(Finite(n as real))
  }

  /** The positive integers are exactly the numbers 1, 2, 3, ... */
  lemma PositiveIntegerIsWholeNumber(v: Value)
    ensures IsPositiveInteger(v) <==> exists n: int :: n >= 1 && v == IntValue(n)
  {
    if IsPositiveInteger(v) {
      var n := v.n.x.Floor;
      assert n >= 1 && v == IntValue(n);
    }
  }

  // ----- pagination -----

  datatype PaginationArgs = PaginationArgs(page: Value, pageSize: Value)

  datatype PaginationParams = PaginationParams(page: int, pageSize: int, limit: int, offset: int)

  /** `a ?? b`: `b` when `a` is null or undefined. */
  function Coalesce(a: Value, b: Value): Value {
    if a.Undefined? || a.Null? then b else a
  }

  /** `args?.page ?? defaults?.page ?? 1`. */
  function EffectivePage(args: Option<PaginationArgs>, defaults: Option<PaginationArgs>): Value {
    var fromArgs := if args.Some? then args.value.page else Undefined;
    var fromDefaults := if defaults.Some? then defaults.value.page else Undefined;
    Coalesce(fromArgs, Coalesce(fromDefaults, Num(Finite(1.0))))
  }

  /** `args?.pageSize ?? defaults?.pageSize ?? 10`. */
  function EffectivePageSize(args: Option<PaginationArgs>, defaults: Option<PaginationArgs>): Value {
    var fromArgs := if args.Some? then args.value.pageSize else Undefined;
    var fromDefaults := if defaults.Some? then defaults.value.pageSize else Undefined;
    Coalesce(fromArgs, Coalesce(fromDefaults, Num(Finite(10.0))))
  }

  function NormalizePagination(args: Option<PaginationArgs>, defaults: Option<PaginationArgs>): (r: Result<PaginationParams, Error>)
    ensures !IsPositiveInteger(EffectivePage(args, defaults)) ==> r == Failure(InvalidPage)
    ensures IsPositiveInteger(EffectivePage(args, defaults)) && !IsPositiveInteger(EffectivePageSize(args, defaults))
            ==> r == Failure(InvalidPageSize)
    ensures (&& IsPositiveInteger(EffectivePage(args, defaults))
             && IsPositiveInteger(EffectivePageSize(args, defaults))
             && EffectivePageSize(args, defaults).n.x > 100.0)
            ==> r == Failure(PageSizeTooLarge)
    ensures r.Success? <==>
            && IsPositiveInteger(EffectivePage(args, defaults))
            && IsPositiveInteger(EffectivePageSize(args, defaults))
            && EffectivePageSize(args, defaults).n.x <= 100.0
    ensures r.Success? ==>
            && EffectivePage(args, defaults) == Num(Finite(r.value.page as real))
            && EffectivePageSize(args, defaults) == Num(Finite(r.value.pageSize as real))
            && r.value.page >= 1
            && 1 <= r.value.pageSize <= 100
            && r.value.limit == r.value.pageSize
            && r.value.offset == (r.value.page - 1) * r.value.pageSize
            && r.value.offset >= 0
    ensures r.Failure? ==> r.error in {InvalidPage, InvalidPageSize, PageSizeTooLarge}
  {
    var page := EffectivePage(args, defaults);
    var pageSize := EffectivePageSize(args, defaults);
    if !IsPositiveInteger(page) then Failure(InvalidPage)
    else if !IsPositiveInteger(pageSize) then Failure(InvalidPageSize)
    else if pageSize.n.x > 100.0 then Failure(PageSizeTooLarge)
    else
      var p := page.n.x.Floor;
      var size := pageSize.n.x.Floor;
      Success(PaginationParams(p, size, size, (p - 1) * size))
  }

  /** The pagination examples of the validator tests. */
  lemma PaginationExamples()
    ensures NormalizePagination(None, None) == Success(PaginationParams(1, 10, 10, 0))
    ensures NormalizePagination(Some(PaginationArgs(Num(Finite(0.0)), Num(Finite(10.0)))), None) == Failure(InvalidPage)
    ensures NormalizePagination(Some(PaginationArgs(Num(Finite(1.0)), Num(Finite(101.0)))), None) == Failure(PageSizeTooLarge)
    ensures NormalizePagination(Some(PaginationArgs(Num(Finite(3.0)), Undefined)), None) == Success(PaginationParams(3, 10, 10, 20))
    ensures NormalizePagination(Some(PaginationArgs(Num(Finite(1.5)), Undefined)), None) == Failure(InvalidPage)
  {
    assert (1.0).Floor == 1 && (10.0).Floor == 10 && (3.0).Floor == 3;
    assert (1.5).Floor == 1;
  }

  // ----- YYYY-MM-DD -----

  /** One position of a regular expression without alternation or repetition. */
  datatype CharClass = AnyDigit | Literal(c: char)

  predicate ClassAccepts(k: CharClass, c: char) {
    match k
    case AnyDigit => '0' <= c <= '9'
    case Literal(l) => c == l
  }

  /** `/^\d{4}-\d{2}-\d{2}$/` with its repetitions written out. */
  const DatePattern: seq<CharClass> :=
    [AnyDigit, AnyDigit, AnyDigit, AnyDigit, Literal('-'), AnyDigit, AnyDigit, Literal('-'), AnyDigit, AnyDigit]

  /** An anchored match of `pattern` against the whole of `s`. */
  predicate MatchesWhole(pattern: seq<CharClass>, s: string)
    decreases |pattern|
  {
    if |pattern| == 0 then |s| == 0
    else |s| > 0 && ClassAccepts(pattern[0], s[0]) && MatchesWhole(pattern[1..], s[1..])
  }

  lemma {:induction false} MatchesWholePositionwise(pattern: seq<CharClass>, s: string)
    ensures MatchesWhole(pattern, s) <==>
            |s| == |pattern| && forall i :: 0 <= i < |s| ==> ClassAccepts(pattern[i], s[i])
    decreases |pattern|
  {
    if |pattern| > 0 && |s| > 0 {
      MatchesWholePositionwise(pattern[1..], s[1..]);
      if |s| == |pattern| && (forall i :: 0 <= i < |s| ==> ClassAccepts(pattern[i], s[i])) {
        assert forall i :: 0 <= i < |s| - 1 ==> ClassAccepts(pattern[1..][i], s[1..][i]) by {
          forall i | 0 <= i < |s| - 1
            ensures ClassAccepts(pattern[1..][i], s[1..][i])
          {
            assert ClassAccepts(pattern[i + 1], s[i + 1]);
          }
        }
      }
      if MatchesWhole(pattern, s) {
        forall i | 0 <= i < |s|
          ensures ClassAccepts(pattern[i], s[i])
        {
          if i > 0 {
            assert ClassAccepts(pattern[1..][i - 1], s[1..][i - 1]);
          }
        }
      }
    }
  }

  predicate IsDigit(c: char) {
    '0' <= c <= '9'
  }

  function RequireDateString(value: string, fieldName: string): (r: Result<(), Error>)
    ensures r.Success? <==>
            && |value| == 10
            && value[4] == '-' && value[7] == '-'
            && forall i :: 0 <= i < 10 && i != 4 && i != 7 ==> IsDigit(value[i])
    ensures r.Failure? ==> r.error == InvalidDateFormat(fieldName)
  {
    MatchesWholePositionwise(DatePattern, value);
    if MatchesWhole(DatePattern, value) then Success(()) else Failure(InvalidDateFormat(fieldName))
  }

  lemma DateStringExamples()
    ensures RequireDateString("2024-01-01", "start").Success?
    ensures RequireDateString("01-01-2024", "start") == Failure(InvalidDateFormat("start"))
  {
    var bad := "01-01-2024";
    assert bad[2] == '-';
  }

  // ----- trimming -----

  /** What `String.prototype.trim` removes: WhiteSpace and LineTerminator. */
  predicate IsTrimmable(c: char) {
    || c == '\t' || c == '\n' || c == '\U{000B}' || c == '\U{000C}' || c == '\r' || c == ' '
    || c == '\U{00A0}' || c == '\U{1680}' || ('\U{2000}' <= c <= '\U{200A}')
    || c == '\U{2028}' || c == '\U{2029}' || c == '\U{202F}' || c == '\U{205F}'
    || c == '\U{3000}' || c == '\U{FEFF}'
  }

  function TrimStart(s: string): (r: string)
    ensures |r| <= |s| && r == s[|s| - |r|..]
    ensures forall i :: 0 <= i < |s| - |r| ==> IsTrimmable(s[i])
    ensures |r| > 0 ==> !IsTrimmable(r[0])
    decreases |s|
  {
    if |s| > 0 && IsTrimmable(s[0]) then TrimStart(s[1..]) else s
  }

  function TrimEnd(s: string): (r: string)
    ensures |r| <= |s| && r == s[..|r|]
    ensures forall i :: |r| <= i < |s| ==> IsTrimmable(s[i])
    ensures |r| > 0 ==> !IsTrimmable(r[|r| - 1])
    decreases |s|
  {
    if |s| > 0 && IsTrimmable(s[|s| - 1]) then TrimEnd(s[..|s| - 1]) else s
  }

  /** The two halves of `Trim` together cut an infix out of `s`. */
  lemma TrimBounds(s: string, t: string, r: string)
    requires |t| <= |s| && t == s[|s| - |t|..]
    requires |r| <= |t| && r == t[..|r|]
    requires forall k :: |r| <= k < |t| ==> IsTrimmable(t[k])
    ensures var i := |s| - |t|;
            && r == s[i..i + |r|]
            && (forall k :: i + |r| <= k < |s| ==> IsTrimmable(s[k]))
  {
    var i := |s| - |t|;
    forall k | i + |r| <= k < |s|
      ensures IsTrimmable(s[k])
    {
      assert s[k] == t[k - i];
    }
  }

  /** `value.trim()`: the infix left after dropping trimmable characters at both ends. */
  function Trim(s: string): (r: string)
    ensures exists i, j :: 0 <= i <= j <= |s| && r == s[i..j]
                           && (forall k :: 0 <= k < i ==> IsTrimmable(s[k]))
                           && (forall k :: j <= k < |s| ==> IsTrimmable(s[k]))
    ensures |r| > 0 ==> !IsTrimmable(r[0]) && !IsTrimmable(r[|r| - 1])
  {
    var t := TrimStart(s);
    var r := TrimEnd(t);
    TrimBounds(s, t, r);
    assert |r| > 0 ==> r[0] == t[0];
    r
  }

  /** Trimming removes every trimmable character, so doing it twice changes nothing. */
  lemma TrimIdempotent(s: string)
    ensures Trim(Trim(s)) == Trim(s)
  {
    var t := Trim(s);
    if |t| > 0 {
      assert TrimStart(t) == t;
      assert TrimEnd(t) == t;
    }
  }

  /** A string trims to nothing exactly when all its characters are trimmable. */
  lemma {:induction false} TrimEmptyIffAllTrimmable(s: string)
    ensures Trim(s) == [] <==> forall k :: 0 <= k < |s| ==> IsTrimmable(s[k])
  {
    if Trim(s) == [] {
      var i, j :| 0 <= i <= j <= |s| && Trim(s) == s[i..j]
                  && (forall k :: 0 <= k < i ==> IsTrimmable(s[k]))
                  && (forall k :: j <= k < |s| ==> IsTrimmable(s[k]));
      assert i == j;
    }
  }

  function RequireNonEmptyString(value: Value, fieldName: string): (r: Result<string, Error>)
    ensures r.Failure? <==> !value.Str? || forall k :: 0 <= k < |value.s| ==> IsTrimmable(value.s[k])
    ensures r.Failure? ==> r.error == FieldRequired(fieldName)
    ensures r.Success? ==> |r.value| > 0 && !IsTrimmable(r.value[0]) && !IsTrimmable(r.value[|r.value| - 1])
    ensures r.Success? ==> r.value == Trim(value.s)
  {
    if !value.Str? then Failure(FieldRequired(fieldName))
    else
      TrimEmptyIffAllTrimmable(value.s);
      if Trim(value.s) == "" then Failure(FieldRequired(fieldName)) else Success(Trim(value.s))
  }

  // ----- numbers and enumerations -----

  function RequirePositiveInt(value: Value, fieldName: string): (r: Result<int, Error>)
    ensures r.Success? <==> IsPositiveInteger(value)
    ensures r.Success? ==> r.value > 0 && value == Num(Finite(r.value as real))
    ensures r.Failure? ==> r.error == NotPositiveInteger(fieldName)
  {
    if !IsPositiveInteger(value) then Failure(NotPositiveInteger(fieldName)) else Success(value.n.x.Floor)
  }

  /** JavaScript `n <= 0`; false for NaN. */
  predicate AtMostZero(n: JsNumber) {
    match n
    case Finite(x) => x <= 0.0
    case NaN => false
    case PositiveInfinity => false
    case NegativeInfinity => true
  }

  function RequirePositiveNumber(value: Value, fieldName: string): (r: Result<JsNumber, Error>)
    ensures r.Success? <==> value.Num? && (value.n.PositiveInfinity? || (value.n.Finite? && value.n.x > 0.0))
    ensures r.Success? ==> value == Num(r.value)
    ensures r.Failure? ==> r.error == NotPositiveNumber(fieldName)
  {
    if !value.Num? || value.n.NaN? || AtMostZero(value.n) then Failure(NotPositiveNumber(fieldName))
    else Success(value.n)
  }

  function RequireRoleValue(value: Value): (r: Result<Role, Error>)
    ensures r.Success? ==> value == Str(RoleName(r.value))
    ensures r.Failure? ==> r.error == InvalidRole
  {
    if value == Str("PROPIETARIO") then Success(Propietario)
    else if value == Str("VIAJERO") then Success(Viajero)
    else Failure(InvalidRole)
  }

  /** Every role name is accepted and read back as that role, and nothing else is accepted. */
  lemma RoleValueRoundTrip(role: Role, value: Value)
    ensures RequireRoleValue(Str(RoleName(role))) == Success(role)
    ensures RequireRoleValue(value).Success? <==> exists q: Role :: value == Str(RoleName(q))
  {
    if RequireRoleValue(value).Success? {
      assert value == Str(RoleName(RequireRoleValue(value).value));
    }
  }

  function RequireBookingStatus(value: Value): (r: Result<BookingStatus, Error>)
    ensures r.Success? ==> value == Str(StatusName(r.value))
    ensures r.Failure? ==> r.error == InvalidStatus
  {
    if value == Str("PENDING") then Success(Pending)
    else if value == Str("CONFIRMED") then Success(Confirmed)
    else if value == Str("CANCELLED") then Success(Cancelled)
    else Failure(InvalidStatus)
  }

  lemma BookingStatusRoundTrip(status: BookingStatus, value: Value)
    ensures RequireBookingStatus(Str(StatusName(status))) == Success(status)
    ensures RequireBookingStatus(value).Success? <==> exists q: BookingStatus :: value == Str(StatusName(q))
  {
    if RequireBookingStatus(value).Success? {
      assert value == Str(StatusName(RequireBookingStatus(value).value));
    }
  }
}
