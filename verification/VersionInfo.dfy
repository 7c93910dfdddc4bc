/** A Windows version-information tree: nodes of a key, a value and children, every part on a 4-byte boundary. */
module VersionInfo {
  import opened Wrappers
  import opened Bytes

  /** Keys are UTF-16 code units. A text value's length is counted in units, any other's in bytes. */
  datatype Node = Node(key: seq<nat>, value: seq<byte>, text: bool, children: seq<Node>)

  // ---------------------------------------------------------------- writing

  /** The bytes before the value: three fields, the key and its NUL, padded. */
  function HeadSize(key: seq<nat>): (r: nat)
    ensures r % 4 == 0 && 8 + 2 * |key| <= r
  {
    Align(6 + 2 * |key| + 2)
  }

  function BlockSize(key: seq<nat>, value: seq<byte>, children: seq<byte>): nat
  {
    if children == [] then HeadSize(key) + |value| else HeadSize(key) + Align(|value|) + |children|
  }

  function ValueCount(value: seq<byte>, text: bool): nat
  {
    if text then |value| / 2 else |value|
  }

  function Flag(text: bool): nat
  {
    if text then 1 else 0
  }

  /** The value, and the children on the next boundary. */
  function Body(value: seq<byte>, children: seq<byte>): (s: seq<byte>)
    ensures |s| == if children == [] then |value| else Align(|value|) + |children|
  {
    if children == [] then value else Padded(value) + children
  }

  /** One node, its children already laid out; None where a field does not fit its 16 bits. */
  function VerBlock(key: seq<nat>, value: seq<byte>, text: bool, children: seq<byte>): (r: Option<seq<byte>>)
    ensures r.Some? ==> |r.value| == BlockSize(key, value, children) < 0x10000
  {
    var size, count := BlockSize(key, value, children), ValueCount(value, text);
    if size >= 0x10000 || count >= 0x10000 then None
    else
      var head := Padded(Le(size, 2) + Le(count, 2) + Le(Flag(text), 2) + Units(key) + [0, 0]);
      Some(head + Body(value, children))
  }

  /**
   * A block is refused exactly when it would be longer than its 16-bit length field can say: its head, key
   * and NUL to a multiple of four, its value, and where it has children, those after the value's padding.
   */
  lemma RefusedExactly(key: seq<nat>, value: seq<byte>, text: bool, children: seq<byte>)
    ensures VerBlock(key, value, text, children).Some? <==>
            var head := (11 + 2 * |key|) / 4 * 4;
            head + (if children == [] then |value| else (|value| + 3) / 4 * 4 + |children|) <= 0xffff
  {
    hide Padded, Le, Units, Body;
  }

  function Encode(n: Node): Option<seq<byte>>
    decreases n, 0
  {
    var kids :- EncodeAll(n.children);
    VerBlock(n.key, n.value, n.text, kids)
  }

  /** Children one after another, each padded. */
  function EncodeAll(ns: seq<Node>): (r: Option<seq<byte>>)
    decreases ns, 1
  {
    if ns == [] then Some([])
    else
      var b :- Encode(ns[0]);
      var more :- EncodeAll(ns[1..]);
      Some(Padded(b) + more)
  }

  // ---------------------------------------------------------------- reading

  /** A key up to its NUL. */
  function ReadKey(s: seq<byte>): (r: Option<seq<nat>>)
    ensures r.Some? ==> 2 * |r.value| + 2 <= |s|
  {
    if |s| < 2 then None
    else if FromLe(s[0..2]) == 0 then Some([])
    else
      var more :- ReadKey(s[2..]);
      Some([FromLe(s[0..2])] + more)
  }

  /** The node at the start of `s`, and its length. */
  function ReadNode(s: seq<byte>): (r: Option<(Node, nat)>)
    ensures r.Some? ==> 0 < r.value.1 <= |s|
    decreases |s|, 0
  {
    if |s| < 8 then None
    else
      var size, count, text := FromLe(s[0..2]), FromLe(s[2..4]), FromLe(s[4..6]) == 1;
      if size < 8 || size > |s| then None
      else
        var key :- ReadKey(s[6..size]);
        var at, n := HeadSize(key), if text then 2 * count else count;
        if at + n > size then None
        else if at + n == size then Some((Node(key, s[at..at + n], text, []), size))
        else if Align(at + n) > size then None
        else
          var kids :- ReadNodes(s[Align(at + n)..size]);
          Some((Node(key, s[at..at + n], text, kids), size))
  }

  /** Nodes one after another, each starting on a 4-byte boundary. */
  function ReadNodes(s: seq<byte>): Option<seq<Node>>
    decreases |s|, 1
  {
    if s == [] then Some([])
    else
      var (n, size) :- ReadNode(s);
      var next := if Align(size) <= |s| then Align(size) else |s|;
      var more :- ReadNodes(s[next..]);
      Some([n] + more)
  }

  // ---------------------------------------------------------------- a tree read back

  /** Keys are units with no NUL among them, and a text value is whole units. */
  predicate Proper(n: Node)
    decreases n
  {
    && (forall i :: 0 <= i < |n.key| ==> 0 < n.key[i] < 0x10000)
    && (n.text ==> |n.value| % 2 == 0)
    && forall c :: c in n.children ==> Proper(c)
  }

  lemma ZeroWord()
    ensures FromLe([0, 0]) == 0
  {
    assert [0, 0][1..] == [0];
    assert FromLe([0]) == 0;
  }

  lemma {:induction false} KeyReads(key: seq<nat>, rest: seq<byte>)
    requires forall i :: 0 <= i < |key| ==> 0 < key[i] < 0x10000
    ensures ReadKey(Units(key) + [0, 0] + rest) == Some(key)
  {
    hide Le, FromLe, Pow256;
    var s := Units(key) + [0, 0] + rest;
    if key == [] {
      ZeroWord();
      assert s[0..2] == [0, 0];
    } else {
      Powers();
      LeRoundTrip(key[0], 2);
      assert s[0..2] == Le(key[0], 2);
      assert s[2..] == Units(key[1..]) + [0, 0] + rest;
      KeyReads(key[1..], rest);
      assert [key[0]] + key[1..] == key;
    }
  }

  lemma ThreeWords(a: nat, b: nat, c: nat, rest: seq<byte>)
    requires a < 0x10000 && b < 0x10000 && c < 0x10000
    ensures var s := Le(a, 2) + Le(b, 2) + Le(c, 2) + rest;
            FromLe(s[0..2]) == a && FromLe(s[2..4]) == b && FromLe(s[4..6]) == c && s[6..] == rest
  {
    hide Le, FromLe, Pow256;
    Powers();
    LeRoundTrip(a, 2);
    LeRoundTrip(b, 2);
    LeRoundTrip(c, 2);
    var s := Le(a, 2) + Le(b, 2) + Le(c, 2) + rest;
    assert s[0..2] == Le(a, 2) && s[2..4] == Le(b, 2) && s[4..6] == Le(c, 2);
  }

  lemma Regroup(a: seq<byte>, b: seq<byte>, c: seq<byte>, d: seq<byte>, e: seq<byte>)
    ensures a + b + c + d + e == a + (b + c + (d + e))
  {
  }

  function Gap(key: seq<nat>): nat
  {
    HeadSize(key) - (8 + 2 * |key|)
  }

  lemma HeadPadded(fields: seq<byte>, key: seq<nat>)
    requires |fields| == 6
    ensures Padded(fields + Units(key) + [0, 0]) == fields + Units(key) + [0, 0] + Zeros(Gap(key))
  {
    hide Align, Units, Zeros;
    assert |fields + Units(key) + [0, 0]| == 6 + 2 * |key| + 2;
  }

  /** What a block is made of: three fields, the key, padding, and a body. */
  lemma BlockParts(key: seq<nat>, value: seq<byte>, text: bool, children: seq<byte>)
    requires VerBlock(key, value, text, children).Some?
    ensures var size := BlockSize(key, value, children);
            && size == HeadSize(key) + |Body(value, children)|
            && VerBlock(key, value, text, children).value
               == Le(size, 2) + Le(ValueCount(value, text), 2) + Le(Flag(text), 2)
                  + (Units(key) + [0, 0] + (Zeros(Gap(key)) + Body(value, children)))
  {
    hide Le, Units, Zeros, Align, Body, ValueCount, Flag, Padded, Gap, HeadSize;
    var fields := Le(BlockSize(key, value, children), 2) + Le(ValueCount(value, text), 2) + Le(Flag(text), 2);
    HeadPadded(fields, key);
    Regroup(fields, Units(key), [0, 0], Zeros(Gap(key)), Body(value, children));
  }

  /** The fields at the start of a block. */
  lemma FieldsRead(key: seq<nat>, value: seq<byte>, text: bool, children: seq<byte>, rest: seq<byte>)
    requires VerBlock(key, value, text, children).Some?
    requires forall i :: 0 <= i < |key| ==> 0 < key[i] < 0x10000
    ensures var s, size := VerBlock(key, value, text, children).value + rest, BlockSize(key, value, children);
            && 8 <= HeadSize(key) <= size <= |s|
            && FromLe(s[0..2]) == size && FromLe(s[2..4]) == ValueCount(value, text) && FromLe(s[4..6]) == Flag(text)
            && ReadKey(s[6..size]) == Some(key)
  {
    hide Le, FromLe, Units, Zeros, ReadKey, Padded;
    BlockParts(key, value, text, children);
    var b, size := VerBlock(key, value, text, children).value, BlockSize(key, value, children);
    var count := ValueCount(value, text);
    var body := Body(value, children);
    var after := Zeros(Gap(key)) + body;
    var tail := Units(key) + [0, 0] + after;
    assert b + rest == Le(size, 2) + Le(count, 2) + Le(Flag(text), 2) + (tail + rest);
    ThreeWords(size, count, Flag(text), tail + rest);
    assert (b + rest)[6..size] == tail;
    KeyReads(key, after);
  }

  lemma BodyLies(key: seq<nat>, value: seq<byte>, text: bool, children: seq<byte>, rest: seq<byte>)
    requires VerBlock(key, value, text, children).Some?
    ensures var s := VerBlock(key, value, text, children).value + rest;
            var at, size := HeadSize(key), BlockSize(key, value, children);
            at <= size <= |s| && s[at..size] == Body(value, children)
  {
    hide Le, Units, Zeros, Align, Body, ValueCount, Flag, VerBlock;
    BlockParts(key, value, text, children);
    var b, body := VerBlock(key, value, text, children).value, Body(value, children);
    assert |b| == BlockSize(key, value, children);
    assert b[HeadSize(key)..] == body;
    assert (b + rest)[HeadSize(key)..|b|] == b[HeadSize(key)..];
  }

  /** The value, and the children after it, where the head's size says. */
  lemma ValueReads(s: seq<byte>, at: nat, size: nat, value: seq<byte>, children: seq<byte>)
    requires at % 4 == 0 && at <= size <= |s| && s[at..size] == Body(value, children)
    ensures at + |value| <= size && s[at..at + |value|] == value
    ensures children == [] ==> at + |value| == size
    ensures children != [] ==>
              at + |value| < size && Align(at + |value|) <= size && s[Align(at + |value|)..size] == children
  {
    hide Align;
    AlignAdd(at, |value|);
    var body := Body(value, children);
    assert s[at..at + |value|] == body[..|value|];
    if children != [] {
      assert s[at + Align(|value|)..size] == body[Align(|value|)..];
    }
  }

  lemma {:induction false} RoundTrip(n: Node, rest: seq<byte>)
    requires Proper(n) && Encode(n).Some?
    ensures ReadNode(Encode(n).value + rest) == Some((n, |Encode(n).value|))
    decreases n, 0
  {
    hide Align, FromLe, VerBlock, ReadKey, Body;
    var kids := EncodeAll(n.children).value;
    var s, size := Encode(n).value + rest, BlockSize(n.key, n.value, kids);
    FieldsRead(n.key, n.value, n.text, kids, rest);
    BodyLies(n.key, n.value, n.text, kids, rest);
    ValueReads(s, HeadSize(n.key), size, n.value, kids);
    RoundTripAll(n.children);
    NoKids(n.children);
  }

  lemma NoKids(ns: seq<Node>)
    requires EncodeAll(ns).Some?
    ensures EncodeAll(ns).value == [] <==> ns == []
  {
  }

  lemma NodesStep(s: seq<byte>, n: Node, size: nat, more: seq<byte>, ns: seq<Node>)
    requires ReadNode(s) == Some((n, size)) && Align(size) <= |s| && s[Align(size)..] == more
    requires ReadNodes(more) == Some(ns)
    ensures ReadNodes(s) == Some([n] + ns)
  {
    hide ReadNode, Align;
  }

  lemma {:induction false} RoundTripAll(ns: seq<Node>)
    requires EncodeAll(ns).Some? && forall c :: c in ns ==> Proper(c)
    ensures ReadNodes(EncodeAll(ns).value) == Some(ns)
    decreases ns, 1
  {
    hide Align, FromLe, ReadNode, Zeros;
    if ns != [] {
      var b, more := Encode(ns[0]).value, EncodeAll(ns[1..]).value;
      var s := EncodeAll(ns).value;
      var gap := Zeros(Align(|b|) - |b|);
      assert s == b + (gap + more);
      RoundTrip(ns[0], gap + more);
      assert s[Align(|b|)..] == more;
      RoundTripAll(ns[1..]);
      NodesStep(s, ns[0], |b|, more, ns[1..]);
      assert [ns[0]] + ns[1..] == ns;
    }
  }

  // ---------------------------------------------------------------- lengths and boundaries

  /** Every node's length field is its length in bytes. */
  lemma LengthField(n: Node)
    requires Encode(n).Some?
    ensures var b := Encode(n).value; 8 <= |b| < 0x10000 && FromLe(b[0..2]) == |b|
  {
    var kids := EncodeAll(n.children).value;
    BlockParts(n.key, n.value, n.text, kids);
    var size, count, flag := BlockSize(n.key, n.value, kids), ValueCount(n.value, n.text), Flag(n.text);
    hide Le, FromLe, Units, Zeros, Align, Body, VerBlock;
    ThreeWords(size, count, flag, Units(n.key) + [0, 0] + (Zeros(Gap(n.key)) + Body(n.value, kids)));
  }

  /** Where the i-th child's block starts in its parent's. */
  function ChildOffset(n: Node, i: nat): nat
    requires Encode(n).Some? && i <= |n.children|
  {
    AllEncode(n.children, i);
    HeadSize(n.key) + Align(|n.value|) + |EncodeAll(n.children[..i]).value|
  }

  lemma Associates(a: seq<byte>, b: seq<byte>, c: seq<byte>)
    ensures a + (b + c) == (a + b) + c
  {
  }

  lemma NoneEncode()
    ensures EncodeAll([]) == Some([])
  {
  }

  lemma OneEncodes(ns: seq<Node>)
    requires ns != []
    ensures EncodeAll(ns) ==
            if Encode(ns[0]).Some? && EncodeAll(ns[1..]).Some?
            then Some(Padded(Encode(ns[0]).value) + EncodeAll(ns[1..]).value) else None
  {
    hide Encode, Padded;
  }

  lemma {:induction false} AllEncode(ns: seq<Node>, i: nat)
    requires EncodeAll(ns).Some? && i <= |ns|
    ensures EncodeAll(ns[..i]).Some? && EncodeAll(ns[i..]).Some?
    ensures EncodeAll(ns).value == EncodeAll(ns[..i]).value + EncodeAll(ns[i..]).value
    ensures |EncodeAll(ns[..i]).value| % 4 == 0
  {
    hide Encode, EncodeAll, Align, Zeros, Padded;
    if i == 0 {
      NoneEncode();
      assert ns[..0] == [] && ns[0..] == ns;
    } else {
      OneEncodes(ns);
      AllEncode(ns[1..], i - 1);
      assert ns[..i][0] == ns[0] && ns[..i][1..] == ns[1..][..i - 1] && ns[i..] == ns[1..][i - 1..];
      OneEncodes(ns[..i]);
      Associates(Padded(Encode(ns[0]).value), EncodeAll(ns[1..][..i - 1]).value, EncodeAll(ns[i..]).value);
    }
  }

  lemma FirstKid(ns: seq<Node>)
    requires EncodeAll(ns).Some? && ns != []
    ensures Encode(ns[0]).Some? && Encode(ns[0]).value <= EncodeAll(ns).value
  {
    hide Encode, Align, Zeros;
  }

  lemma KidsLie(n: Node)
    requires Encode(n).Some? && n.children != []
    ensures EncodeAll(n.children).Some?
    ensures var b, at := Encode(n).value, HeadSize(n.key) + Align(|n.value|);
            at <= |b| && b[at..] == EncodeAll(n.children).value
  {
    hide Align, VerBlock, Zeros;
    var kids := EncodeAll(n.children).value;
    NoKids(n.children);
    BodyLies(n.key, n.value, n.text, kids, []);
    var b, h := Encode(n).value, HeadSize(n.key);
    assert b + [] == b;
    assert b[h..] == Body(n.value, kids);
    assert b[h + Align(|n.value|)..] == b[h..][Align(|n.value|)..];
  }

  lemma Inside(b: seq<byte>, at: nat, before: seq<byte>, from: seq<byte>, c: seq<byte>)
    requires at <= |b| && b[at..] == before + from && c <= from
    ensures at + |before| + |c| <= |b| && b[at + |before|..at + |before| + |c|] == c
  {
    assert b[at + |before|..] == from;
    assert from[..|c|] == c;
  }

  /** Every child starts on a 4-byte boundary, and what lies there is its own block. */
  lemma ChildAligned(n: Node, i: nat)
    requires Encode(n).Some? && i < |n.children|
    ensures Encode(n.children[i]).Some?
    ensures var b, c, o := Encode(n).value, Encode(n.children[i]).value, ChildOffset(n, i);
            o % 4 == 0 && o + |c| <= |b| && b[o..o + |c|] == c
  {
    hide Encode, EncodeAll, HeadSize, Align;
    KidsLie(n);
    AllEncode(n.children, i);
    assert n.children[i..][0] == n.children[i];
    FirstKid(n.children[i..]);
    Inside(Encode(n).value, HeadSize(n.key) + Align(|n.value|), EncodeAll(n.children[..i]).value,
           EncodeAll(n.children[i..]).value, Encode(n.children[i]).value);
  }

  /**
   * A child given unpadded is the same as padded wherever its length is already a multiple of 4, as
   * every block with children has.
   */
  lemma BlockWithChildrenAligned(n: Node)
    requires Encode(n).Some? && n.children != []
    ensures |Encode(n).value| % 4 == 0 && Padded(Encode(n).value) == Encode(n).value
  {
    hide Encode, EncodeAll, HeadSize;
    KidsLie(n);
    AllEncode(n.children, |n.children|);
    assert n.children[..|n.children|] == n.children;
  }
}
