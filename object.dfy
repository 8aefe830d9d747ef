/**
 * S9sObject: a named property bag, a map from property name to Variant.
 *
 * The constructors and setters change the map in place, so the object is a
 * class with one field; the readers are functions over that field.
 */
module Objects {
  import opened Text
  import opened Variants

  const ClassNameKey: string := "class_name"

  /** className() of S9sObject; the constructors call it before any subclass exists. */
  const ObjectClassName: string := "S9sObject"

  /** The UTF-8 bytes of "…" (U+2026), appended by name(columns). */
  const Ellipsis: string := [0xE2 as char, 0x80 as char, 0xA6 as char]

  /** S9sString::looksBoolean(): one of the recognised words, after trimming, in any case. */
  predicate LooksBoolean(s: string) {
    ToLowerString(CStr(Trim(s))) in TrueWords + FalseWords
  }

  /** S9sString::looksInteger(): after trimming, an optional sign and at least one decimal digit, nothing else. */
  predicate LooksInteger(s: string) {
    var t := Trim(s);
    var j := if t != [] && (t[0] == '-' || t[0] == '+') then 1 else 0;
    j < |t| && forall i :: j <= i < |t| ==> IsDecimalDigit(t[i])
  }

  /** The Variant setProperty(name, value) stores for a non-empty string. */
  function PropertyValueOf(value: string): (r: Variant)
    requires value != []
    ensures r.Bool? || r.Int? || r == String(value)
    ensures r.Bool? <==> LooksBoolean(value)
    ensures r.Int? <==> !LooksBoolean(value) && LooksInteger(value)
    ensures r.Bool? ==> (r.b <==> ToLowerString(CStr(Trim(value))) in TrueWords)
    ensures r.Int? ==> r.i == Atoi(value)
  {
    if LooksBoolean(value) then Bool(StringToBoolean(value, false))
    else if LooksInteger(value) then Int(StringToInt(value, 0))
    else String(value)
  }

  /** An integer's text is stored as that Int. */
  lemma PropertyValueOfDecimal(n: int32)
    ensures PropertyValueOf(IntToDecimal(n)) == Int(n)
  {
    var s := IntToDecimal(n);
    DecimalTextIsTrimmed(n);
    NumericTextIsNoWord(IntToDecimal(n));
    assert LooksInteger(s);
    AtoiOfDecimal(n);
  }

  /** A Bool's text ("true" or "false") is stored as that Bool. */
  lemma PropertyValueOfBoolText(b: bool)
    ensures PropertyValueOf(ToString(Bool(b))) == Bool(b)
  {
    var s := ToString(Bool(b));
    BoolTextIsWord(b);
    BoolTextRoundTrip(b, false);
    assert LooksBoolean(s);
    assert ToBoolean(String(s), false) == StringToBoolean(s, false);
  }

  class Object {
    var properties: map<string, Variant>

    /** S9sObject(): only class_name is set. */
    constructor ()
      ensures properties == map[ClassNameKey := String(ObjectClassName)]
    {
      properties := map[ClassNameKey := String(ObjectClassName)];
    }

    /** The copy constructor copies the map verbatim. */
    constructor Copy(orig: Object)
      ensures properties == orig.properties
    {
      properties := orig.properties;
    }

    /** S9sObject(map): keeps the map and adds class_name only when it is missing. */
    constructor FromMap(props: map<string, Variant>)
      ensures ClassNameKey in properties
      ensures ClassNameKey in props ==> properties == props
      ensures ClassNameKey !in props ==> properties == props[ClassNameKey := String(ObjectClassName)]
    {
      if ClassNameKey in props {
        properties := props;
      } else {
        properties := props[ClassNameKey := String(ObjectClassName)];
      }
    }

    /** operator=(map): the same as setProperties; class_name is not re-added. */
    method AssignMap(rhs: map<string, Variant>)
      modifies this
      ensures properties == rhs
    {
      SetProperties(rhs);
    }

    /** setProperties(): drops every property, then takes the given ones. */
    method SetProperties(props: map<string, Variant>)
      modifies this
      ensures properties == props
    {
      properties := props;
    }

    /** toVariantMap(): the whole property map, agreeing with property() on every name. */
    function ToVariantMap(): (r: map<string, Variant>)
      reads this
      ensures forall k :: k in r <==> HasProperty(k)
      ensures forall k :: k in r ==> r[k] == Property(k)
    {
      properties
    }

    function HasProperty(key: string): (r: bool)
      reads this
      ensures r <==> key in properties
    {
      key in properties
    }

    /** property(name): the stored value, or Invalid when the name is not set. */
    function Property(name: string): (r: Variant)
      reads this
      ensures name in properties ==> r == properties[name]
      ensures name !in properties ==> r == Invalid
      ensures r != Invalid ==> HasProperty(name)
    {
      if name in properties then properties[name] else Invalid
    }

    /**
     * setProperty(name, string): the empty string erases the property;
     * otherwise the value is stored as a Bool, an Int or the String. Only
     * `name` changes.
     */
    method SetStringProperty(name: string, value: string)
      modifies this
      ensures value == [] ==> properties == old(properties) - {name}
      ensures value != [] ==> properties == old(properties)[name := PropertyValueOf(value)]
    {
      if value == [] {
        properties := properties - {name};
        return;
      }
      properties := properties[name := PropertyValueOf(value)];
    }

    /** setProperty(name, bool). */
    method SetBoolProperty(name: string, value: bool)
      modifies this
      ensures properties == old(properties)[name := Bool(value)]
    {
      properties := properties[name := Bool(value)];
    }

    /** setProperty(name, int). */
    method SetIntProperty(name: string, value: int32)
      modifies this
      ensures properties == old(properties)[name := Int(value)]
    {
      properties := properties[name := Int(value)];
    }

    /**
     * What the string accessors promise about r for the property `key`: ""
     * when it is missing, and the text itself when it holds a String.
     */
    predicate IsStringPropertyOf(r: string, key: string)
      reads this
    {
      (key !in properties ==> r == "") &&
      (key in properties && properties[key].String? ==> r == properties[key].s)
    }

    /** name(): the "alias" property as a string; "" when it is missing. */
    function Name(): (r: string)
      reads this
      ensures IsStringPropertyOf(r, "alias")
    {
      ToString(Property("alias"))
    }

    /**
     * name(columns): name() cut to `columns` bytes with "…" appended when it
     * is longer; unchanged when columns <= 0 or it fits.
     */
    function NameColumns(columns: int): (r: string)
      reads this
      ensures columns <= 0 || |Name()| <= columns ==> r == Name()
      ensures columns > 0 && |Name()| > columns ==>
        |r| == columns + |Ellipsis| && r[..columns] == Name()[..columns] && r[columns..] == Ellipsis
    {
      var retval := Name();
      if columns <= 0 then retval
      else if |retval| > columns then retval[..columns] + Ellipsis
      else retval
    }

    /** aclString(): the "acl" property as a string. */
    function AclString(): (r: string)
      reads this
      ensures IsStringPropertyOf(r, "acl")
    {
      ToString(Property("acl"))
    }

    /** id(): the "id" property as a string. */
    function Id(): (r: string)
      reads this
      ensures "id" !in properties ==> r == ""
      ensures "id" in properties && properties["id"].Int? ==> Atoi(r) == properties["id"].i
      ensures "id" in properties && properties["id"].String? ==> r == properties["id"].s
    {
      var v := Property("id");
      if v.Int? then
        AtoiOfDecimal(v.i);
        ToString(v)
      else ToString(v)
    }

    /** cdtPath(): the "cdt_path" property as a string. */
    function CdtPath(): (r: string)
      reads this
      ensures IsStringPropertyOf(r, "cdt_path")
    {
      ToString(Property("cdt_path"))
    }

    /** ownerName(): the "owner_user_name" property as a string. */
    function OwnerName(): (r: string)
      reads this
      ensures IsStringPropertyOf(r, "owner_user_name")
    {
      ToString(Property("owner_user_name"))
    }

    /** groupOwnerName(): the "owner_group_name" property as a string. */
    function GroupOwnerName(): (r: string)
      reads this
      ensures IsStringPropertyOf(r, "owner_group_name")
    {
      ToString(Property("owner_group_name"))
    }
  }

  /** Storing an integer's text through setProperty(name, string) reads back as that Int. */
  method SetIntegerTextReadsBack(o: Object, name: string, n: int32)
    modifies o
    ensures o.Property(name) == Int(n)
    ensures forall k :: k != name ==> o.Property(k) == old(o.Property(k))
  {
    PropertyValueOfDecimal(n);
    o.SetStringProperty(name, IntToDecimal(n));
  }
}
