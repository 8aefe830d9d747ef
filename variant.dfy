/**
 * S9sVariant: the tagged union every request and reply is built from.
 *
 * The value itself is the datatype `Variant`; conversions, `==` and `<`
 * are functions over it. The C++ object that `clear()`, `operator=` and
 * `operator[]` overwrite in place is the class `VariantObject`.
 *
 * A Double payload is a `real`: IEEE rounding, NaN and infinities are not
 * modelled. A Node payload is the node's property map.
 */
module Variants {
  import opened Text

  datatype Variant =
    | Invalid
    | Int(i: int32)
    | ULongLong(u: uint64)
    | Double(d: real)
    | Bool(b: bool)
    | String(s: string)
    | List(items: seq<Variant>)
    | Map(entries: map<string, Variant>)
    | Node(properties: map<string, Variant>)
  {
    /** isNumber(): the three numeric tags. */
    predicate IsNumber() {
      Int? || ULongLong? || Double?
    }

    /** The payloads that `==` can compare with themselves. */
    predicate IsScalar() {
      Int? || ULongLong? || Double? || Bool? || String?
    }
  }

  /** 10 * DBL_EPSILON, the tolerance of fuzzyCompare. */
  const FuzzyTolerance: real := 10.0 / 4503599627370496.0

  /** fuzzyCompare(a, b): |a - b| < 10 * DBL_EPSILON. */
  predicate FuzzyEqual(a: real, b: real) {
    -FuzzyTolerance < a - b < FuzzyTolerance
  }

  /** toDouble() on a numeric variant (exact: no rounding of large integers). */
  function NumberValue(v: Variant): real
    requires v.IsNumber()
  {
    match v
    case Int(i) => i as real
    case ULongLong(u) => u as real
    case Double(d) => d
  }

  /** (int) of a double: truncation toward zero; out of range (undefined in C++) gives INT_MIN. */
  function DoubleToInt(d: real): (r: int32)
    ensures 0.0 <= d < 0x8000_0000 as real ==> 0.0 <= d - r as real < 1.0
    ensures -0x8000_0000 as real < d < 0.0 ==> -1.0 < d - r as real <= 0.0
  {
    var t := if d >= 0.0 then d.Floor else -((-d).Floor);
    if -0x8000_0000 <= t < 0x8000_0000 then t else -0x8000_0000
  }

  /** (unsigned long long) of a double: truncation toward zero; out of range (undefined in C++) gives 0. */
  function DoubleToULongLong(d: real): (r: uint64)
    ensures 0.0 <= d < TwoTo64 as real ==> 0.0 <= d - r as real < 1.0
    ensures -1.0 < d < 0.0 ==> r == 0
  {
    if 0.0 <= d && d.Floor < TwoTo64 then d.Floor else 0
  }

  // -----------------------------------------------------------------------
  // typeName and the aggregate accessors
  // -----------------------------------------------------------------------

  /** The nine names typeName() can give. */
  const TypeNames: set<string> :=
    {"invalid", "int", "ulonglong", "double", "bool", "string", "node", "list", "map"}

  /** typeName(): the lower-case name of the tag. */
  function TypeName(v: Variant): (r: string)
    ensures r in TypeNames
  {
    match v
    case Invalid => "invalid"
    case Int(_) => "int"
    case ULongLong(_) => "ulonglong"
    case Double(_) => "double"
    case Bool(_) => "bool"
    case String(_) => "string"
    case Node(_) => "node"
    case List(_) => "list"
    case Map(_) => "map"
  }

  /** typeName() tells every tag apart. */
  lemma TypeNameIdentifiesTag(a: Variant, b: Variant)
    ensures TypeName(a) == TypeName(b) <==>
      (a.Invalid? && b.Invalid?) || (a.Int? && b.Int?) || (a.ULongLong? && b.ULongLong?)
      || (a.Double? && b.Double?) || (a.Bool? && b.Bool?) || (a.String? && b.String?)
      || (a.Node? && b.Node?) || (a.List? && b.List?) || (a.Map? && b.Map?)
  {
    assert "invalid"[0] == 'i' && "int"[1] == 'n' && "ulonglong"[0] == 'u' && "double"[0] == 'd';
    assert "bool"[0] == 'b' && "string"[0] == 's' && "node"[0] == 'n' && "list"[0] == 'l' && "map"[0] == 'm';
  }

  /** toNode(): the node held, or the empty node. */
  function ToNode(v: Variant): (r: map<string, Variant>)
    ensures v.Node? ==> r == v.properties
    ensures !v.Node? ==> r == map[]
  {
    if v.Node? then v.properties else map[]
  }

  /** toVariantMap(): the map held, a node's properties, or the empty map. */
  function ToVariantMap(v: Variant): (r: map<string, Variant>)
    ensures v.Map? ==> r == v.entries
    ensures v.Node? ==> r == ToNode(v)
    ensures !v.Map? && !v.Node? ==> r == map[]
  {
    match v
    case Map(m) => m
    case Node(p) => p
    case _ => map[]
  }

  /** toVariantList(): the list held, or the empty list. */
  function ToVariantList(v: Variant): (r: seq<Variant>)
    ensures v.List? ==> r == v.items
    ensures !v.List? ==> r == []
  {
    if v.List? then v.items else []
  }

  // -----------------------------------------------------------------------
  // Conversions
  // -----------------------------------------------------------------------

  /**
   * toString(): Bool as "true"/"false", Int as `%d`, Ulonglong as `%llu`,
   * String as itself; Invalid, Map, List and Node give "". Double (`%g`)
   * is not modelled and also gives "".
   */
  function ToString(v: Variant): (r: string)
    ensures v.String? ==> r == v.s
    ensures v.Bool? ==> r == (if v.b then "true" else "false")
    ensures v.Invalid? || v.Map? || v.List? || v.Node? ==> r == ""
    ensures v.Int? ==> r == IntToDecimal(v.i)
    ensures v.ULongLong? ==> r == NatToDecimal(v.u)
  {
    match v
    case String(s) => s
    case Bool(b) => if b then "true" else "false"
    case Int(i) => IntToDecimal(i)
    case ULongLong(u) => NatToDecimal(u)
    case _ => ""
  }

  /** atoi() of a non-empty string, the default for the empty one. */
  function StringToInt(s: string, default: int32): int32 {
    if s == [] then default else Atoi(s)
  }

  function ToInt(v: Variant, default: int32): (r: int32)
    ensures v.Invalid? || v.Map? || v.List? || v.Node? ==> r == default
    ensures v.String? && v.s == [] ==> r == default
    ensures v.Bool? ==> r == (if v.b then 1 else 0)
    ensures v.Int? ==> r == v.i
    ensures v.ULongLong? ==> (r - v.u) % TwoTo32 == 0
    ensures v.String? && v.s != [] ==> r == Atoi(v.s)
    ensures v.Double? ==> r == DoubleToInt(v.d)
  {
    match v
    case Invalid => default
    case String(s) => StringToInt(s, default)
    case Int(i) => i
    case Double(d) => DoubleToInt(d)
    case ULongLong(u) => WrapInt32(u)
    case Bool(b) => if b then 1 else 0
    case _ => default
  }

  function ToULongLong(v: Variant, default: uint64): (r: uint64)
    ensures v.Invalid? || v.Map? || v.List? || v.Node? ==> r == default
    ensures v.String? && v.s == [] ==> r == default
    ensures v.Bool? ==> r == (if v.b then 1 else 0)
    ensures v.ULongLong? ==> r == v.u
    ensures v.Int? ==> (r - v.i) % TwoTo64 == 0 && (v.i >= 0 ==> r == v.i)
    ensures v.String? && v.s != [] ==> r == Strtoull(v.s)
    ensures v.Double? ==> r == DoubleToULongLong(v.d)
  {
    match v
    case Invalid => default
    case ULongLong(u) => u
    case Int(i) => WrapUInt64(i)
    case Double(d) => DoubleToULongLong(d)
    case String(s) => if s == [] then default else Strtoull(s)
    case Bool(b) => if b then 1 else 0
    case _ => default
  }

  /** toTimeT(): toULongLong(0) converted to the signed 64-bit time_t. */
  function ToTimeT(v: Variant): (r: int64)
    ensures !v.ULongLong? && !v.Int? && !v.Double? && !v.Bool? && !v.String? ==> r == 0
    ensures v.ULongLong? && v.u < 0x8000_0000_0000_0000 ==> r == v.u
    ensures v.Int? ==> r == v.i
    ensures v.ULongLong? && v.u >= 0x8000_0000_0000_0000 ==> r == v.u - TwoTo64
    ensures v.Bool? ==> r == (if v.b then 1 else 0)
    ensures v.String? ==> r == (if v.s == [] then 0 else WrapInt64(Strtoull(v.s)))
    ensures v.Double? ==> r == WrapInt64(DoubleToULongLong(v.d))
  {
    WrapInt64(ToULongLong(v, 0))
  }

  const TrueWords: set<string> := {"yes", "true", "on", "t"}
  const FalseWords: set<string> := {"no", "false", "off", "f"}

  /** The String case of toBoolean(): trim, then the words, then atoi. */
  function StringToBoolean(s: string, default: bool): (r: bool)
    ensures Trim(s) == [] ==> r == default
    ensures Trim(s) != [] && ToLowerString(CStr(Trim(s))) in TrueWords ==> r
    ensures Trim(s) != [] && ToLowerString(CStr(Trim(s))) in FalseWords - TrueWords ==> !r
    ensures Trim(s) != [] && ToLowerString(CStr(Trim(s))) !in TrueWords + FalseWords ==> r == (Atoi(Trim(s)) != 0)
  {
    var trimmed := Trim(s);
    var word := ToLowerString(CStr(trimmed));
    if trimmed == [] then default
    else if word in TrueWords then true
    else if word in FalseWords then false
    else Atoi(trimmed) != 0
  }

  function ToBoolean(v: Variant, default: bool): (r: bool)
    ensures v.Invalid? || v.Map? || v.List? || v.Node? ==> r == default
    ensures v.Bool? ==> r == v.b
    ensures v.Int? ==> r == (v.i != 0)
    ensures v.ULongLong? ==> r == (v.u != 0)
    ensures v.String? && Trim(v.s) == [] ==> r == default
    ensures v.Double? ==> r == (v.d != 0.0)
  {
    match v
    case Invalid => default
    case Bool(b) => b
    case String(s) => StringToBoolean(s, default)
    case Int(i) => i != 0
    case Double(d) => d != 0.0
    case ULongLong(u) => u != 0
    case _ => default
  }

  /** No word is both a true word and a false word. */
  lemma WordsDisjoint()
    ensures TrueWords !! FalseWords
  {
    assert forall w :: w in TrueWords ==> |w| != 2 || w == "on";
  }

  /** The recognised words, in any letter case and with surrounding whitespace, decide toBoolean(). */
  lemma BooleanWords(s: string, default: bool)
    requires Trim(s) != [] && '\0' !in Trim(s)
    ensures ToLowerString(Trim(s)) in TrueWords ==> ToBoolean(String(s), default)
    ensures ToLowerString(Trim(s)) in FalseWords ==> !ToBoolean(String(s), default)
  {
    CStrWithoutNul(Trim(s));
    WordsDisjoint();
    var word := ToLowerString(Trim(s));
    assert ToBoolean(String(s), default) == StringToBoolean(s, default);
    assert StringToBoolean(s, default) == if word in TrueWords then true else if word in FalseWords then false else Atoi(Trim(s)) != 0;
  }

  lemma {:induction false} CStrWithoutNul(s: string)
    requires '\0' !in s
    ensures CStr(s) == s
  {
    if s != [] {
      CStrWithoutNul(s[1..]);
      assert s == [s[0]] + s[1..];
    }
  }

  /** A string that is not one of the words converts by its leading integer. */
  lemma OtherStringsUseLeadingInteger(s: string, default: bool)
    requires Trim(s) != []
    requires ToLowerString(CStr(Trim(s))) !in TrueWords + FalseWords
    ensures ToBoolean(String(s), default) == (Atoi(Trim(s)) != 0)
  {
    assert ToBoolean(String(s), default) == StringToBoolean(s, default);
  }

  /** atoi() of an Int's text is the Int. */
  lemma IntTextRoundTrip(n: int32, default: int32)
    ensures ToInt(String(ToString(Int(n))), default) == n
  {
    var s := ToString(Int(n));
    AtoiOfDecimal(n);
    assert s != [];
    assert ToInt(String(s), default) == Atoi(s);
  }

  /** strtoull() of a Ulonglong's text is the Ulonglong. */
  lemma ULongLongTextRoundTrip(u: uint64, default: uint64)
    ensures ToULongLong(String(ToString(ULongLong(u))), default) == u
  {
    var s := ToString(ULongLong(u));
    StrtoullOfDecimal(u);
    assert s != [];
    assert ToULongLong(String(s), default) == Strtoull(s);
  }

  /** A Bool's text is already trimmed, holds no NUL or capital, and is a true word exactly for true. */
  lemma BoolTextIsWord(b: bool)
    ensures Trim(ToString(Bool(b))) == ToString(Bool(b)) != []
    ensures '\0' !in ToString(Bool(b)) && CStr(ToString(Bool(b))) == ToString(Bool(b))
    ensures ToLowerString(ToString(Bool(b))) == ToString(Bool(b))
    ensures ToString(Bool(b)) in (if b then TrueWords else FalseWords)
  {
    var s := ToString(Bool(b));
    assert s == if b then "true" else "false";
    assert forall i :: 0 <= i < |s| ==> 'a' <= s[i] <= 'z';
    LowerWordIsPlain(s);
  }

  /** A non-empty word of lower-case letters is its own trim, its own C string and its own lower case. */
  lemma LowerWordIsPlain(s: string)
    requires s != [] && forall i :: 0 <= i < |s| ==> 'a' <= s[i] <= 'z'
    ensures Trim(s) == s && '\0' !in s && CStr(s) == s && ToLowerString(s) == s
  {
    assert !IsSpace(s[0]) && !IsSpace(s[|s| - 1]);
    CStrWithoutNul(s);
  }

  /** toBoolean() of a Bool's text ("true" or "false") is the Bool. */
  lemma BoolTextRoundTrip(b: bool, default: bool)
    ensures ToBoolean(String(ToString(Bool(b))), default) == b
  {
    var s := ToString(Bool(b));
    BoolTextIsWord(b);
    BooleanWords(s, default);
    if b {
      assert ToLowerString(Trim(s)) in TrueWords;
    } else {
      assert ToLowerString(Trim(s)) in FalseWords;
    }
  }

  /** Every recognised word starts with a lower-case letter. */
  lemma WordsStartWithLetter(w: string)
    requires w in TrueWords + FalseWords
    ensures |w| > 0 && 'a' <= w[0] <= 'z'
  {
  }

  /** An integer's text is already trimmed and holds no NUL. */
  lemma DecimalTextIsTrimmed(n: int32)
    ensures Trim(IntToDecimal(n)) == IntToDecimal(n)
    ensures CStr(IntToDecimal(n)) == IntToDecimal(n)
    ensures IntToDecimal(n) != [] && (IsDecimalDigit(IntToDecimal(n)[0]) || IntToDecimal(n)[0] == '-')
  {
    var s := IntToDecimal(n);
    assert |s| > 1 ==> IsDecimalDigit(s[|s| - 1]);
    assert !IsSpace(s[0]) && !IsSpace(s[|s| - 1]);
    assert '\0' !in s by {
      forall i | 0 <= i < |s| ensures s[i] != '\0' {
        if i > 0 { assert IsDecimalDigit(s[i]); }
      }
    }
    CStrWithoutNul(s);
  }

  /** A text that starts with a digit or a minus sign is none of the words, in any case. */
  lemma NumericTextIsNoWord(s: string)
    requires s != [] && (IsDecimalDigit(s[0]) || s[0] == '-')
    ensures ToLowerString(s) !in TrueWords + FalseWords
  {
    var w := ToLowerString(s);
    assert w[0] == s[0];
    if w in TrueWords + FalseWords {
      WordsStartWithLetter(w);
      assert false;
    }
  }

  /** toBoolean() of an integer's text is whether the integer is non-zero. */
  lemma IntTextAsBoolean(n: int32, default: bool)
    ensures ToBoolean(String(ToString(Int(n))), default) == (n != 0)
  {
    DecimalTextIsTrimmed(n);
    PlainTextAsBoolean(IntToDecimal(n), default);
    AtoiOfDecimal(n);
  }

  /** A trimmed, NUL-free text that starts with a digit or a minus sign converts by atoi. */
  lemma PlainTextAsBoolean(s: string, default: bool)
    requires s != [] && Trim(s) == s && CStr(s) == s
    requires IsDecimalDigit(s[0]) || s[0] == '-'
    ensures ToBoolean(String(s), default) == (Atoi(s) != 0)
  {
    NumericTextIsNoWord(s);
    OtherStringsUseLeadingInteger(s, default);
  }

  // -----------------------------------------------------------------------
  // operator== and operator<
  // -----------------------------------------------------------------------

  /** operator==: compares only within a category; a String never equals a non-String. */
  function Equals(a: Variant, b: Variant): (r: bool)
    ensures r ==> (a.IsNumber() && b.IsNumber()) || (a.String? && b.String?) || (a.Bool? && b.Bool?)
    ensures a.String? != b.String? ==> !r
  {
    if a.Int? && b.Int? then a.i == b.i
    else if a.ULongLong? && b.ULongLong? then a.u == b.u
    else if a.Double? && b.Double? then FuzzyEqual(a.d, b.d)
    else if a.String? && b.String? then a.s == b.s
    else if a.IsNumber() && b.IsNumber() then FuzzyEqual(NumberValue(a), NumberValue(b))
    else if a.Bool? && b.Bool? then a.b == b.b
    else if a.String? != b.String? then false
    else false
  }

  /** operator<: numbers by value, strings lexicographically, false across categories. */
  function Less(a: Variant, b: Variant): (r: bool)
    ensures r ==> (a.IsNumber() && b.IsNumber()) || (a.String? && b.String?)
  {
    if a.Int? && b.Int? then a.i < b.i
    else if a.ULongLong? && b.ULongLong? then a.u < b.u
    else if a.IsNumber() && b.IsNumber() then NumberValue(a) < NumberValue(b)
    else if a.String? && b.String? then StrLess(a.s, b.s)
    else false
  }

  /** A String and a non-String are never equal, whatever their text. */
  lemma StringNeverEqualsOther(a: Variant, b: Variant)
    requires a.String? != b.String?
    ensures !Equals(a, b) && !Equals(b, a)
  {
  }

  /** Same-tag Int, Ulonglong, String and Bool values are equal exactly when their payloads are. */
  lemma EqualsExactWithinTag(a: Variant, b: Variant)
    ensures a.Int? && b.Int? ==> (Equals(a, b) <==> a == b)
    ensures a.ULongLong? && b.ULongLong? ==> (Equals(a, b) <==> a == b)
    ensures a.String? && b.String? ==> (Equals(a, b) <==> a == b)
    ensures a.Bool? && b.Bool? ==> (Equals(a, b) <==> a == b)
  {
  }

  /** Invalid, Map, List and Node equal nothing, themselves included; scalars equal themselves. */
  lemma EqualsReflexiveOnlyOnScalars(a: Variant, b: Variant)
    ensures !a.IsScalar() ==> !Equals(a, b) && !Equals(b, a)
    ensures Equals(a, a) <==> a.IsScalar()
  {
  }

  lemma EqualsSymmetric(a: Variant, b: Variant)
    ensures Equals(a, b) == Equals(b, a)
  {
  }

  /** Numbers of different tags compare by value: Int(1) == Double(1.0). */
  lemma MixedNumbersCompareByValue(a: Variant, b: Variant)
    requires a.IsNumber() && b.IsNumber()
    requires NumberValue(a) == NumberValue(b)
    ensures Equals(a, b)
  {
  }

  /** operator< is a strict order: irreflexive, asymmetric and transitive. */
  lemma LessIsStrictOrder(a: Variant, b: Variant, c: Variant)
    ensures !Less(a, a)
    ensures Less(a, b) ==> !Less(b, a)
    ensures Less(a, b) && Less(b, c) ==> Less(a, c)
  {
    if a.String? {
      StrLessIrreflexive(a.s);
      if b.String? && Less(a, b) {
        StrLessAsymmetric(a.s, b.s);
        if c.String? && Less(b, c) {
          StrLessTransitive(a.s, b.s, c.s);
        }
      }
    }
  }

  /** operator< is false across categories: against Invalid, Bool, aggregates, and between String and number. */
  lemma LessOnlyWithinCategory(a: Variant, b: Variant)
    requires !(a.IsNumber() && b.IsNumber()) && !(a.String? && b.String?)
    ensures !Less(a, b)
  {
  }

  /** On Int, Ulonglong and String values of one tag, exactly one of a < b, a == b, b < a holds. */
  lemma TrichotomyWithinExactTags(a: Variant, b: Variant)
    requires (a.Int? && b.Int?) || (a.ULongLong? && b.ULongLong?) || (a.String? && b.String?)
    ensures Less(a, b) || Equals(a, b) || Less(b, a)
    ensures Equals(a, b) ==> !Less(a, b) && !Less(b, a)
    ensures Less(a, b) ==> !Equals(a, b) && !Less(b, a)
  {
    if a.String? {
      if a.s != b.s {
        StrLessTotal(a.s, b.s);
      } else {
        StrLessIrreflexive(a.s);
      }
      if Less(a, b) {
        StrLessAsymmetric(a.s, b.s);
        StrLessIrreflexive(a.s);
      }
    }
  }

  // -----------------------------------------------------------------------
  // The S9sVariant object: clear(), operator=, operator[]
  // -----------------------------------------------------------------------

  /** An S9sVariant object whose value is overwritten in place. */
  class VariantObject {
    var value: Variant

    /** The default constructor: an Invalid variant. */
    constructor ()
      ensures value == Invalid
    {
      value := Invalid;
    }

    /** The copy constructor: same tag, equal (deep-copied) payload. */
    constructor Copy(orig: VariantObject)
      ensures value == orig.value
    {
      value := orig.value;
    }

    /** clear(): drops the payload and sets the type to Invalid. */
    method Clear()
      modifies this
      ensures value == Invalid
    {
      value := Invalid;
    }

    /** operator=: a no-op on self-assignment, otherwise clear() and copy. */
    method Assign(rhs: VariantObject)
      modifies this
      ensures value == old(rhs.value)
      ensures rhs == this ==> value == old(value)
    {
      if this == rhs {
        return;
      }
      Clear();
      value := rhs.value;
    }

    /**
     * operator[]: an Invalid variant first becomes an empty Map; on a Map the
     * key is looked up and, when missing, inserted as Invalid. The returned
     * value is the slot's. Any other type fails the source's assert.
     */
    method Index(key: string) returns (slot: Variant)
      requires value.Invalid? || value.Map?
      modifies this
      ensures value.Map?
      ensures old(value).Invalid? ==> value.entries == map[key := Invalid]
      ensures old(value).Map? && key in old(value).entries ==> value == old(value)
      ensures old(value).Map? && key !in old(value).entries ==> value.entries == old(value).entries[key := Invalid]
      ensures key in value.entries && slot == value.entries[key]
      decreases if value.Invalid? then 1 else 0
    {
      if value.Invalid? {
        value := Map(map[]);
        slot := Index(key);
        return;
      }
      if key !in value.entries {
        value := Map(value.entries[key := Invalid]);
      }
      slot := value.entries[key];
    }
  }
}
