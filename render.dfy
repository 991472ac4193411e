/**
 * Value rendering of xxx::log: impl::dump_ writes one value to a stream
 * (containers element by element, comma separated), impl::enclose_ writes a
 * comma-separated argument list, and enclose / concatenate wrap them.
 */
module Render {
  import opened Text

  /**
   * The closed set of shapes dump_ has an overload for. Map and Set carry
   * their elements in the container's iteration order: for std::map and
   * std::set that is ascending key order (see OrderedIntSet, OrderedIntMap),
   * for the unordered containers it is whatever order the hash table gives.
   */
  datatype Value =
    | Str(s: string)             // char, char const* and std::string: written as they are
    | Int(i: int)                // integral values, bool as 0 or 1
    | Vector(items: seq<Value>)  // std::vector
    | Map(entries: seq<Entry>)   // std::map, std::unordered_map
    | Set(items: seq<Value>)     // std::set, std::unordered_set

  datatype Entry = Entry(key: Value, val: Value)

  /** dump_ of a single value. */
  function Render(v: Value): (r: string)
    ensures v.Vector? ==> |r| >= 2 && r[0] == '[' && r[|r| - 1] == ']'
    ensures v.Map? || v.Set? ==> |r| >= 2 && r[0] == '{' && r[|r| - 1] == '}'
    decreases v
  {
    match v
    case Str(s) => s
    case Int(i) => Decimal(i)
    case Vector(items) =>
      "[" + Join(seq(|items|, k requires 0 <= k < |items| => Render(items[k])), ",") + "]"
    case Map(entries) =>
      "{" + Join(seq(|entries|, k requires 0 <= k < |entries| =>
                    assert entries[k] < v;
                    Render(entries[k].key) + ":" + Render(entries[k].val)), ",") + "}"
    case Set(items) =>
      "{" + Join(seq(|items|, k requires 0 <= k < |items| => Render(items[k])), ",") + "}"
  }

  /** The renderings of an argument list, one per argument. */
  function Rendered(args: seq<Value>): (r: seq<string>)
    ensures |r| == |args|
    ensures forall k :: 0 <= k < |args| ==> r[k] == Render(args[k])
  {
    seq(|args|, k requires 0 <= k < |args| => Render(args[k]))
  }

  /** impl::enclose_: head, then ',' and the rest; it equals the comma join of the renderings. */
  function EncloseArgs(args: seq<Value>): (r: string)
    requires args != []
    ensures r == Join(Rendered(args), ",")
  {
    if |args| == 1 then Render(args[0])
    else
      assert Rendered(args)[1..] == Rendered(args[1..]);
      Render(args[0]) + "," + EncloseArgs(args[1..])
  }

  /** enclose(args...): the arguments comma separated inside parentheses. */
  function Enclose(args: seq<Value>): (r: string)
    ensures r == "(" + Join(Rendered(args), ",") + ")"
  {
    "(" + (if args == [] then "" else EncloseArgs(args)) + ")"
  }

  /** The variadic impl::dump_(os, head, args...): each argument rendered, nothing between. */
  function DumpArgs(args: seq<Value>): (r: string)
    ensures r == Concat(Rendered(args))
  {
    if args == [] then ""
    else
      assert Rendered(args)[1..] == Rendered(args[1..]);
      Render(args[0]) + DumpArgs(args[1..])
  }

  /** concatenate(args...): the renderings with no separator; "" for no argument. */
  function Concatenate(args: seq<Value>): (r: string)
    ensures r == Concat(Rendered(args))
  {
    if args == [] then "" else DumpArgs(args)
  }

  /** concatenate distributes over splitting its argument list. */
  lemma ConcatenateAppend(a: seq<Value>, b: seq<Value>)
    ensures Concatenate(a + b) == Concatenate(a) + Concatenate(b)
  {
    assert Rendered(a + b) == Rendered(a) + Rendered(b);
    ConcatAppend(Rendered(a), Rendered(b));
  }

  /** Appending a part to a parenthesised, comma-joined list inserts "," and the part before the ")". */
  lemma ParenthesisedAppend(parts: seq<string>, x: string)
    requires parts != []
    ensures var e := "(" + Join(parts, ",") + ")";
      |e| >= 2 && "(" + Join(parts + [x], ",") + ")" == e[..|e| - 1] + "," + x + ")"
  {
    var j := Join(parts, ",");
    var e := "(" + j + ")";
    assert e[..|e| - 1] == "(" + j;
    JoinAppend(parts, x, ",");
  }

  /** Adding an argument to a non-empty enclose list adds ',' and its rendering before ')'. */
  lemma EncloseAppend(a: seq<Value>, x: Value)
    requires a != []
    ensures var e := Enclose(a);
      |e| >= 2 && Enclose(a + [x]) == e[..|e| - 1] + "," + Render(x) + ")"
  {
    assert Rendered(a + [x]) == Rendered(a) + [Render(x)];
    ParenthesisedAppend(Rendered(a), Render(x));
  }

  /** enclose of one value, as tracer_t::set_result uses it. */
  lemma EncloseSingle(v: Value)
    ensures Enclose([v]) == "(" + Render(v) + ")"
  {
  }

  /** enclose() is "()" and concatenate() is "". */
  lemma EmptyArgumentLists()
    ensures Enclose([]) == "()"
    ensures Concatenate([]) == ""
  {
  }

  /** enclose("arg", 2) is "(arg,2)" and concatenate("arg", 2) is "arg2". */
  lemma ArgAndTwo()
    ensures Enclose([Str("arg"), Int(2)]) == "(arg,2)"
    ensures Concatenate([Str("arg"), Int(2)]) == "arg2"
  {
    assert Decimal(2) == "2";
    assert Rendered([Str("arg"), Int(2)]) == ["arg", "2"];
  }

  /** An empty vector renders as "[]", an empty map or set as "{}". */
  lemma EmptyContainers()
    ensures Render(Vector([])) == "[]"
    ensures Render(Map([])) == "{}"
    ensures Render(Set([])) == "{}"
  {
  }

  /** The text between the brackets of a container's rendering. */
  function Inner(r: string): string
    requires |r| >= 2
  {
    r[1..|r| - 1]
  }

  /** No element's rendering holds a ',', so the separators can be found again. */
  predicate CommaFree(items: seq<Value>) {
    forall k :: 0 <= k < |items| ==> ',' !in Render(items[k])
  }

  /** The rendering of a list is the comma join of its elements' renderings. */
  lemma ListRendering(items: seq<Value>)
    ensures seq(|items|, k requires 0 <= k < |items| => Render(items[k])) == Rendered(items)
  {
  }

  /**
   * A vector renders between '[' and ']', and when no element's rendering
   * holds a ',', cutting the text between the brackets at each ',' gives
   * back the elements' renderings, in order.
   */
  lemma VectorRendering(items: seq<Value>)
    requires items != [] && CommaFree(items)
    ensures var r := Render(Vector(items));
      r[0] == '[' && r[|r| - 1] == ']' && Split(Inner(r), ',') == Rendered(items)
  {
    ListRendering(items);
    var r := Render(Vector(items));
    assert Inner(r) == Join(Rendered(items), ",");
    SplitJoin(Rendered(items), ',');
  }

  /** The same for a set (std::set, std::unordered_set), between '{' and '}'. */
  lemma SetRendering(items: seq<Value>)
    requires items != [] && CommaFree(items)
    ensures var r := Render(Set(items));
      r[0] == '{' && r[|r| - 1] == '}' && Split(Inner(r), ',') == Rendered(items)
  {
    ListRendering(items);
    var r := Render(Set(items));
    assert Inner(r) == Join(Rendered(items), ",");
    SplitJoin(Rendered(items), ',');
  }

  lemma HasElement(keys: set<int>)
    requires keys != {}
    ensures exists y :: y in keys
  {
    assert (forall y :: y !in keys) ==> keys == {};
  }

  /** The smallest element of a non-empty set of integers. */
  lemma {:induction false} MinExists(keys: set<int>)
    requires keys != {}
    ensures exists m :: m in keys && IsLowerBound(m, keys)
    decreases |keys|
  {
    HasElement(keys);
    var y :| y in keys;
    var rest := keys - {y};
    if rest == {} {
      assert keys == {y};
      assert IsLowerBound(y, keys);
    } else {
      MinExists(rest);
      var m :| m in rest && IsLowerBound(m, rest);
      var low := if y < m then y else m;
      forall x | x in keys ensures low <= x {
        if x != y { assert x in rest; }
      }
      assert low in keys && IsLowerBound(low, keys);
    }
  }

  ghost predicate IsLowerBound(m: int, keys: set<int>) {
    forall x :: x in keys ==> m <= x
  }

  ghost function MinOf(keys: set<int>): (m: int)
    requires keys != {}
    ensures m in keys && forall x :: x in keys ==> m <= x
  {
    MinExists(keys);
    var m :| m in keys && IsLowerBound(m, keys); m
  }

  /** The iteration order of a std::set<int> or of the keys of a std::map<int, V>. */
  ghost function SortedKeys(s: set<int>): (r: seq<int>)
    ensures |r| == |s|
    ensures forall x :: x in s <==> x in r
    ensures forall i, j :: 0 <= i < j < |r| ==> r[i] < r[j]
    decreases |s|
  {
    if s == {} then []
    else
      var m := MinOf(s);
      var rest := SortedKeys(s - {m});
      assert forall x :: x in rest ==> m < x;
      [m] + rest
  }

  /** A std::set<int> holding exactly s. */
  ghost function OrderedIntSet(s: set<int>): (v: Value)
  {
    var keys := SortedKeys(s);
    Set(seq(|keys|, k requires 0 <= k < |keys| => Int(keys[k])))
  }

  /** A std::map<int, V> holding exactly m. */
  ghost function OrderedIntMap(m: map<int, Value>): (v: Value)
  {
    var keys := SortedKeys(m.Keys);
    Map(seq(|keys|, k requires 0 <= k < |keys| => Entry(Int(keys[k]), m[keys[k]])))
  }

  /** An ordered set renders its elements in ascending order, each exactly once. */
  lemma OrderedSetRendering(s: set<int>)
    ensures var keys := SortedKeys(s);
      && (forall i, j :: 0 <= i < j < |keys| ==> keys[i] < keys[j])
      && (forall x :: x in s <==> x in keys)
      && Render(OrderedIntSet(s)) == "{" + Join(seq(|keys|, k requires 0 <= k < |keys| => Decimal(keys[k])), ",") + "}"
  {
    var keys := SortedKeys(s);
    var items := seq(|keys|, k requires 0 <= k < |keys| => Int(keys[k]));
    calc {
      Render(OrderedIntSet(s));
      Render(Set(items));
      { ListRendering(items); }
      "{" + Join(Rendered(items), ",") + "}";
      { assert Rendered(items) == seq(|keys|, k requires 0 <= k < |keys| => Decimal(keys[k])); }
      "{" + Join(seq(|keys|, k requires 0 <= k < |keys| => Decimal(keys[k])), ",") + "}";
    }
  }

  /** An ordered map renders "key:value" pairs in ascending key order. */
  lemma OrderedMapRendering(m: map<int, Value>)
    ensures var keys := SortedKeys(m.Keys);
      && (forall i, j :: 0 <= i < j < |keys| ==> keys[i] < keys[j])
      && (forall x :: x in m <==> x in keys)
      && Render(OrderedIntMap(m)) == "{" + Join(seq(|keys|, k requires 0 <= k < |keys| => Decimal(keys[k]) + ":" + Render(m[keys[k]])), ",") + "}"
  {
    var keys := SortedKeys(m.Keys);
    var entries := seq(|keys|, k requires 0 <= k < |keys| => Entry(Int(keys[k]), m[keys[k]]));
    var parts := seq(|entries|, k requires 0 <= k < |entries| => Render(entries[k].key) + ":" + Render(entries[k].val));
    var target := seq(|keys|, k requires 0 <= k < |keys| => Decimal(keys[k]) + ":" + Render(m[keys[k]]));
    forall k | 0 <= k < |keys|
      ensures parts[k] == target[k]
    {
      assert entries[k] == Entry(Int(keys[k]), m[keys[k]]);
    }
    assert parts == target;
    assert Render(OrderedIntMap(m)) == Render(Map(entries));
  }

  /**
   * Cutting the text between the braces of an ordered set at each ','
   * gives the elements' numerals in ascending order.
   */
  lemma OrderedSetItems(s: set<int>)
    requires s != {}
    ensures var keys := SortedKeys(s);
      var r := Render(OrderedIntSet(s));
      r[0] == '{' && r[|r| - 1] == '}' && Split(Inner(r), ',') == seq(|keys|, k requires 0 <= k < |keys| => Decimal(keys[k]))
  {
    var keys := SortedKeys(s);
    var parts := seq(|keys|, k requires 0 <= k < |keys| => Decimal(keys[k]));
    OrderedSetRendering(s);
    forall k | 0 <= k < |parts| ensures ',' !in parts[k] {
      DecimalHasNoSeparator(keys[k]);
    }
    assert |keys| == |s| > 0 by { SetNotEmpty(s); }
    SplitJoin(parts, ',');
  }

  /**
   * When no value's rendering holds a ',', cutting the text between the
   * braces of an ordered map at each ',' gives the "key:value" entries in
   * ascending key order.
   */
  lemma OrderedMapEntries(m: map<int, Value>)
    requires m != map[]
    requires forall x :: x in m ==> ',' !in Render(m[x])
    ensures var keys := SortedKeys(m.Keys);
      var r := Render(OrderedIntMap(m));
      && r[0] == '{' && r[|r| - 1] == '}'
      && Split(Inner(r), ',') == seq(|keys|, k requires 0 <= k < |keys| => Decimal(keys[k]) + ":" + Render(m[keys[k]]))
  {
    var keys := SortedKeys(m.Keys);
    var parts := seq(|keys|, k requires 0 <= k < |keys| => Decimal(keys[k]) + ":" + Render(m[keys[k]]));
    OrderedMapRendering(m);
    forall k | 0 <= k < |parts| ensures ',' !in parts[k] {
      DecimalHasNoSeparator(keys[k]);
      assert keys[k] in m;
    }
    assert |keys| == |m.Keys| > 0 by { SetNotEmpty(m.Keys); }
    SplitJoin(parts, ',');
  }

  lemma SetNotEmpty(s: set<int>)
    requires s != {}
    ensures |s| > 0
  {
  }
}
