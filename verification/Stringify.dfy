/**
  The log printer: a depth-limited walk over an object graph that may be shared or cyclic, with one
  `seen` set that is added to on the way in and deleted from on the way out.
 */
module Stringify {
  import opened Common

  type Ref = nat

  datatype Value =
    | Null | Undefined | Text(s: string) | Number(digits: string) | Boolean(b: bool) | Function | Symbol
    | BigInt(digits: string)
    | Pointer(ref: Ref)

  datatype Node = ArrayNode(items: seq<Value>) | ObjectNode(entries: seq<(string, Value)>)

  /** The heap: any finite graph. A pointer out of it does not occur. */
  type Heap = map<Ref, Node>

  predicate Closed(h: Heap) {
    forall r <- h ::
      match h[r]
      case ArrayNode(items) => forall v <- items :: v.Pointer? ==> v.ref in h
      case ObjectNode(entries) => forall e <- entries :: e.1.Pointer? ==> e.1.ref in h
  }

  predicate Known(h: Heap, v: Value) { v.Pointer? ==> v.ref in h }

  // ---------- What is printed ----------

  /** The printed structure. */
  datatype Doc =
    | Leaf(text: string)
    | Circular
    | TooDeep
    | ArrayDoc(items: seq<Doc>)
    | ObjectDoc(keys: seq<string>, fields: seq<Doc>)

  function Plain(v: Value): string
    requires !v.Pointer?
  {
    match v
    case Null => "null"
    case Undefined => "undefined"
    case Text(s) => "\"" + s + "\""
    case Number(d) => d
    case Boolean(b) => if b then "true" else "false"
    case Function => "[Function]"
    case Symbol => "[Symbol]"
    case BigInt(d) => d
  }

  /**
    The meaning of the print, without any shared state: `path` is the set of objects (not arrays)
    the value is nested in.
   */
  function Render(h: Heap, v: Value, depth: nat, maxDepth: nat, path: set<Ref>): Doc
    requires Closed(h) && Known(h, v)
    decreases maxDepth + 1 - depth
  {
    if depth > maxDepth then TooDeep
    else if !v.Pointer? then Leaf(Plain(v))
    else match h[v.ref]
      case ArrayNode(items) =>
        ArrayDoc(seq(|items|, i requires 0 <= i < |items| => Render(h, items[i], depth + 1, maxDepth, path)))
      case ObjectNode(entries) =>
        if v.ref in path then Circular
        else ObjectDoc(seq(|entries|, i requires 0 <= i < |entries| => entries[i].0),
                       seq(|entries|, i requires 0 <= i < |entries| =>
                             Render(h, entries[i].1, depth + 1, maxDepth, path + {v.ref})))
  }

  function Spaces(level: nat): string {
    if level == 0 then "" else "  " + Spaces(level - 1)
  }

  function Digits(n: nat): string {
    if n < 10 then ["0123456789"[n]] else Digits(n / 10) + ["0123456789"[n % 10]]
  }

  function Join(parts: seq<string>, separator: string): string {
    if parts == [] then ""
    else if |parts| == 1 then parts[0]
    else parts[0] + separator + Join(parts[1..], separator)
  }

  function KeyAt(keys: seq<string>, i: nat): string { if i < |keys| then keys[i] else "" }

  /** The text of a structure. */
  function Show(d: Doc, depth: nat): string
    decreases d
  {
    match d
    case Leaf(text) => text
    case Circular => "[Circular]"
    case TooDeep => "[Object depth exceeded]"
    case ArrayDoc(items) =>
      "[Array] [\n"
      + Join(seq(|items|, i requires 0 <= i < |items| => ItemLine(depth, i, Show(items[i], depth + 1))), "\n")
      + "\n" + Spaces(depth) + "]"
    case ObjectDoc(keys, fields) =>
      "[Object] {\n"
      + Join(seq(|fields|, i requires 0 <= i < |fields| =>
                   FieldLine(depth, KeyAt(keys, i), Show(fields[i], depth + 1))), ",\n")
      + "\n" + Spaces(depth) + "}"
  }

  function ItemLine(depth: nat, i: nat, text: string): string {
    Spaces(depth + 1) + "[" + Digits(i) + "]: " + text
  }

  function FieldLine(depth: nat, key: string, text: string): string {
    Spaces(depth + 1) + key + ": " + text
  }

  // ---------- What the text looks like ----------

  /** How a value that is no object reads, and the two marks. */
  lemma LeafTexts(s: string, digits: string)
    ensures Plain(Null) == "null" && Plain(Undefined) == "undefined"
    ensures Plain(Text(s)) == ['"'] + s + ['"'] && Plain(Number(digits)) == digits && Plain(BigInt(digits)) == digits
    ensures Plain(Boolean(true)) == "true" && Plain(Boolean(false)) == "false"
    ensures Plain(Function) == "[Function]" && Plain(Symbol) == "[Symbol]"
    ensures forall depth: nat ::
        Show(Circular, depth) == "[Circular]" && Show(TooDeep, depth) == "[Object depth exceeded]"
  {
  }

  /** Two blanks for each level. */
  lemma {:induction false} SpacesAreBlanks(level: nat)
    ensures |Spaces(level)| == 2 * level && forall c <- Spaces(level) :: c == ' '
  {
    if level > 0 { SpacesAreBlanks(level - 1); }
  }

  function DecimalValue(digits: string): int {
    if digits == "" then 0
    else DecimalValue(digits[..|digits| - 1]) * 10 + (digits[|digits| - 1] as int - '0' as int)
  }

  lemma NumeralIsDigit(d: nat)
    requires d < 10
    ensures var c := "0123456789"[d];
            '0' <= c <= '9' && c as int - '0' as int == d && (c == '0' ==> d == 0)
  {
  }

  /** The index of an item, in decimal without leading zeros. */
  lemma {:induction false} DigitsAreDecimal(n: nat)
    ensures Digits(n) != "" && forall i | 0 <= i < |Digits(n)| :: '0' <= Digits(n)[i] <= '9'
    ensures DecimalValue(Digits(n)) == n && (Digits(n)[0] == '0' ==> n == 0)
  {
    NumeralIsDigit(n % 10);
    var last := "0123456789"[n % 10];
    if n < 10 {
      assert Digits(n) == [last] && DecimalValue([last][..0]) == 0;
    } else {
      DigitsAreDecimal(n / 10);
      assert Digits(n) == Digits(n / 10) + [last];
      assert Digits(n)[..|Digits(n)| - 1] == Digits(n / 10);
    }
  }

  lemma JoinTwo(x: string, y: string, separator: string)
    ensures Join([x, y], separator) == x + separator + y && Join([x], separator) == x
  {
    assert [x, y][1..] == [y];
    assert Join([y], separator) == y;
  }

  /** How arrays read: one line for each item, one level deeper, after its index; no commas. */
  lemma ArrayReads(a: Doc, b: Doc, depth: nat)
    ensures Show(ArrayDoc([]), depth) == "[Array] [\n" + "\n" + Spaces(depth) + "]"
    ensures Show(ArrayDoc([a]), depth) ==
            "[Array] [\n" + (Spaces(depth + 1) + "[0]: " + Show(a, depth + 1)) + "\n" + Spaces(depth) + "]"
    ensures Show(ArrayDoc([a, b]), depth) ==
            "[Array] [\n"
            + ((Spaces(depth + 1) + "[0]: " + Show(a, depth + 1)) + "\n"
              + (Spaces(depth + 1) + "[1]: " + Show(b, depth + 1)))
            + "\n" + Spaces(depth) + "]"
  {
    var x, y := Spaces(depth + 1) + "[0]: " + Show(a, depth + 1), Spaces(depth + 1) + "[1]: " + Show(b, depth + 1);
    ItemReads(depth, 0, Show(a, depth + 1));
    ItemReads(depth, 1, Show(b, depth + 1));
    ItemLines([], depth, []);
    ItemLines([a], depth, [x]);
    ItemLines([a, b], depth, [x, y]);
    JoinTwo(x, y, "\n");
  }

  lemma ItemReads(depth: nat, i: nat, text: string)
    requires i < 2
    ensures ItemLine(depth, i, text) == Spaces(depth + 1) + (if i == 0 then "[0]: " else "[1]: ") + text
  {
    assert Digits(i) == if i == 0 then "0" else "1";
    assert Spaces(depth + 1) + "[" + Digits(i) + "]: " == Spaces(depth + 1) + (if i == 0 then "[0]: " else "[1]: ");
  }

  lemma ItemLines(items: seq<Doc>, depth: nat, lines: seq<string>)
    requires |lines| == |items| && forall i | 0 <= i < |items| ::
        lines[i] == ItemLine(depth, i, Show(items[i], depth + 1))
    ensures Show(ArrayDoc(items), depth) == "[Array] [\n" + Join(lines, "\n") + "\n" + Spaces(depth) + "]"
  {
    var d := ArrayDoc(items);
    assert lines == seq(|d.items|, i requires 0 <= i < |d.items| => ItemLine(depth, i, Show(d.items[i], depth + 1)));
  }

  /** How objects read: one line for each property, one level deeper, after its name; commas between. */
  lemma ObjectReads(j: string, a: Doc, k: string, b: Doc, depth: nat)
    ensures Show(ObjectDoc([], []), depth) == "[Object] {\n" + "\n" + Spaces(depth) + "}"
    ensures Show(ObjectDoc([j], [a]), depth) ==
            "[Object] {\n" + (Spaces(depth + 1) + j + ": " + Show(a, depth + 1)) + "\n" + Spaces(depth) + "}"
    ensures Show(ObjectDoc([j, k], [a, b]), depth) ==
            "[Object] {\n"
            + ((Spaces(depth + 1) + j + ": " + Show(a, depth + 1)) + ",\n"
              + (Spaces(depth + 1) + k + ": " + Show(b, depth + 1)))
            + "\n" + Spaces(depth) + "}"
  {
    var x, y := Spaces(depth + 1) + j + ": " + Show(a, depth + 1), Spaces(depth + 1) + k + ": " + Show(b, depth + 1);
    FieldLines([], [], depth, []);
    FieldLines([j], [a], depth, [x]);
    FieldLines([j, k], [a, b], depth, [x, y]);
    JoinTwo(x, y, ",\n");
  }

  lemma FieldLines(keys: seq<string>, fields: seq<Doc>, depth: nat, lines: seq<string>)
    requires |lines| == |fields| == |keys|
    requires forall i | 0 <= i < |fields| :: lines[i] == FieldLine(depth, keys[i], Show(fields[i], depth + 1))
    ensures Show(ObjectDoc(keys, fields), depth) == "[Object] {\n" + Join(lines, ",\n") + "\n" + Spaces(depth) + "}"
  {
    var d := ObjectDoc(keys, fields);
    assert lines == seq(|d.fields|, i requires 0 <= i < |d.fields| =>
                          FieldLine(depth, KeyAt(d.keys, i), Show(d.fields[i], depth + 1)));
  }

  // ---------- Where the marks appear ----------

  /** The part of a value at a position: item `p[0]`, then item `p[1]` of that, and so on. */
  function ValueAt(h: Heap, v: Value, p: seq<nat>): Option<Value>
    requires Closed(h) && Known(h, v)
    decreases |p|
  {
    if p == [] then Some(v)
    else if !v.Pointer? then None
    else match h[v.ref]
      case ArrayNode(items) => if p[0] < |items| then ValueAt(h, items[p[0]], p[1..]) else None
      case ObjectNode(entries) => if p[0] < |entries| then ValueAt(h, entries[p[0]].1, p[1..]) else None
  }

  /** The objects (not arrays) on the way from a value to a position in it. */
  function Ancestors(h: Heap, v: Value, p: seq<nat>): set<Ref>
    requires Closed(h) && Known(h, v)
    decreases |p|
  {
    if p == [] || !v.Pointer? then {}
    else match h[v.ref]
      case ArrayNode(items) => if p[0] < |items| then Ancestors(h, items[p[0]], p[1..]) else {}
      case ObjectNode(entries) => {v.ref} + if p[0] < |entries| then Ancestors(h, entries[p[0]].1, p[1..]) else {}
  }

  /** The way to the position never enters an object it is already in. */
  predicate NeverReenters(h: Heap, v: Value, p: seq<nat>, path: set<Ref>)
    requires Closed(h) && Known(h, v)
    decreases |p|
  {
    if p == [] || !v.Pointer? then true
    else match h[v.ref]
      case ArrayNode(items) => p[0] < |items| ==> NeverReenters(h, items[p[0]], p[1..], path)
      case ObjectNode(entries) =>
        v.ref !in path && (p[0] < |entries| ==> NeverReenters(h, entries[p[0]].1, p[1..], path + {v.ref}))
  }

  function DocAt(d: Doc, p: seq<nat>): Option<Doc>
    decreases |p|
  {
    if p == [] then Some(d)
    else match d
      case ArrayDoc(items) => if p[0] < |items| then DocAt(items[p[0]], p[1..]) else None
      case ObjectDoc(_, fields) => if p[0] < |fields| then DocAt(fields[p[0]], p[1..]) else None
      case _ => None
  }

  /** A value is marked as circular here: an object among its own ancestors. */
  predicate InItself(h: Heap, v: Value, ancestors: set<Ref>) {
    v.Pointer? && v.ref in h && h[v.ref].ObjectNode? && v.ref in ancestors
  }

  /**
    What is printed, on every finite graph. A position appears exactly if it exists, is at most one
    level below the depth limit and is not inside a repeated object. The depth mark stands exactly
    below the limit; the circular mark exactly at an object nested in itself, never at an array
    and never at an object that is merely shared.
   */
  lemma {:induction false} MarksAreExact(h: Heap, v: Value, depth: nat, maxDepth: nat, path: set<Ref>, p: seq<nat>)
    requires Closed(h) && Known(h, v)
    ensures var d := DocAt(Render(h, v, depth, maxDepth, path), p);
            var w := ValueAt(h, v, p);
            && (d.Some? <==> w.Some? && (p == [] || depth + |p| <= maxDepth + 1) && NeverReenters(h, v, p, path))
            && (d.Some? ==>
                  && (d.value.TooDeep? <==> depth + |p| > maxDepth)
                  && (d.value.Circular? <==>
                      depth + |p| <= maxDepth && InItself(h, w.value, path + Ancestors(h, v, p))))
    decreases |p|
  {
    if p != [] && depth <= maxDepth && v.Pointer? {
      match h[v.ref]
      case ArrayNode(items) =>
        if p[0] < |items| { MarksAreExact(h, items[p[0]], depth + 1, maxDepth, path, p[1..]); }
      case ObjectNode(entries) =>
        if p[0] < |entries| && v.ref !in path {
          MarksAreExact(h, entries[p[0]].1, depth + 1, maxDepth, path + {v.ref}, p[1..]);
          assert path + Ancestors(h, v, p) == path + {v.ref} + Ancestors(h, entries[p[0]].1, p[1..]);
        }
    }
  }

  /** The structure printed for a value that is neither too deep nor circular. */
  predicate IsPrinted(h: Heap, w: Value, d: Doc) {
    if !w.Pointer? then d == Leaf(Plain(w))
    else
      w.ref in h &&
      match h[w.ref]
      case ArrayNode(items) => d.ArrayDoc? && |d.items| == |items|
      case ObjectNode(entries) =>
        && d.ObjectDoc? && |d.keys| == |d.fields| == |entries|
        && forall i | 0 <= i < |entries| :: d.keys[i] == entries[i].0
  }

  /**
    What stands at a position that is printed: a leaf its own text, an array all its items, an object
    all its properties.
   */
  lemma {:induction false} PrintedIsExact(h: Heap, v: Value, depth: nat, maxDepth: nat, path: set<Ref>, p: seq<nat>)
    requires Closed(h) && Known(h, v)
    ensures var d, w := DocAt(Render(h, v, depth, maxDepth, path), p), ValueAt(h, v, p);
            d.Some? ==> w.Some? && (d.value.TooDeep? || d.value.Circular? || IsPrinted(h, w.value, d.value))
    decreases |p|
  {
    if p != [] && depth <= maxDepth && v.Pointer? {
      match h[v.ref]
      case ArrayNode(items) =>
        if p[0] < |items| { PrintedIsExact(h, items[p[0]], depth + 1, maxDepth, path, p[1..]); }
      case ObjectNode(entries) =>
        if p[0] < |entries| && v.ref !in path {
          PrintedIsExact(h, entries[p[0]].1, depth + 1, maxDepth, path + {v.ref}, p[1..]);
        }
    }
  }

  // ---------- Imperative form ----------

  class WeakSet {
    var elements: set<Ref>

    constructor ()
      ensures elements == {}
    {
      elements := {};
    }
  }

  /** The recursion shares one `seen` set; it returns as it was, and the text is that of `Render` from it. */
  method SafeStringifyMessage(h: Heap, msg: Value, depth: nat, maxDepth: nat, seen: WeakSet) returns (text: string)
    requires Closed(h) && Known(h, msg)
    modifies seen
    ensures seen.elements == old(seen.elements)
    ensures text == Show(Render(h, msg, depth, maxDepth, old(seen.elements)), depth)
    decreases maxDepth + 1 - depth
  {
    if depth > maxDepth { return "[Object depth exceeded]"; }
    if !msg.Pointer? { return Plain(msg); }
    match h[msg.ref] {
      case ArrayNode(items) =>
        var lines := MapItems(h, items, depth, maxDepth, seen);
        text := "[Array] [\n" + Join(lines, "\n") + "\n" + Spaces(depth) + "]";
        ghost var d := Render(h, msg, depth, maxDepth, seen.elements);
        assert lines == seq(|d.items|,
            i requires 0 <= i < |d.items| => ItemLine(depth, i, Show(d.items[i], depth + 1)));
      case ObjectNode(entries) =>
        if msg.ref in seen.elements { return "[Circular]"; }
        ghost var d := Render(h, msg, depth, maxDepth, seen.elements);
        seen.elements := seen.elements + {msg.ref};
        var lines := MapEntries(h, entries, depth, maxDepth, seen);
        seen.elements := seen.elements - {msg.ref};
        text := "[Object] {\n" + Join(lines, ",\n") + "\n" + Spaces(depth) + "}";
        assert lines == seq(|d.fields|,
            i requires 0 <= i < |d.fields| => FieldLine(depth, KeyAt(d.keys, i), Show(d.fields[i], depth + 1)));
    }
  }

  method MapItems(h: Heap, items: seq<Value>, depth: nat, maxDepth: nat, seen: WeakSet) returns (lines: seq<string>)
    requires Closed(h) && (forall v <- items :: Known(h, v)) && depth <= maxDepth
    modifies seen
    ensures seen.elements == old(seen.elements)
    ensures |lines| == |items|
    ensures forall i | 0 <= i < |items| ::
        lines[i] == ItemLine(depth, i, Show(Render(h, items[i], depth + 1, maxDepth, seen.elements), depth + 1))
    decreases maxDepth + 1 - depth, 0
  {
    lines := [];
    for idx := 0 to |items|
      invariant seen.elements == old(seen.elements) && |lines| == idx
      invariant forall i | 0 <= i < idx ::
          lines[i] == ItemLine(depth, i, Show(Render(h, items[i], depth + 1, maxDepth, seen.elements), depth + 1))
    {
      var text := SafeStringifyMessage(h, items[idx], depth + 1, maxDepth, seen);
      lines := lines + [ItemLine(depth, idx, text)];
    }
  }

  method MapEntries(h: Heap, entries: seq<(string, Value)>, depth: nat, maxDepth: nat, seen: WeakSet)
    returns (lines: seq<string>)
    requires Closed(h) && (forall e <- entries :: Known(h, e.1)) && depth <= maxDepth
    modifies seen
    ensures seen.elements == old(seen.elements)
    ensures |lines| == |entries|
    ensures forall i | 0 <= i < |entries| ::
              lines[i] == FieldLine(depth, entries[i].0,
                Show(Render(h, entries[i].1, depth + 1, maxDepth, seen.elements), depth + 1))
    decreases maxDepth + 1 - depth, 0
  {
    lines := [];
    for k := 0 to |entries|
      invariant seen.elements == old(seen.elements) && |lines| == k
      invariant forall i | 0 <= i < k ::
                  lines[i] == FieldLine(depth, entries[i].0,
                    Show(Render(h, entries[i].1, depth + 1, maxDepth, seen.elements), depth + 1))
    {
      var text := SafeStringifyMessage(h, entries[k].1, depth + 1, maxDepth, seen);
      lines := lines + [FieldLine(depth, entries[k].0, text)];
    }
  }
}
