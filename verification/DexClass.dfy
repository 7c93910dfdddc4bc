/** A dex class's data: ULEB128 numbers, and the methods they list. */
module DexClass {
  import opened Wrappers
  import opened Bytes

  // ---------------------------------------------------------------- ULEB128

  /** A number and the bytes after it; None where the bytes run out. */
  function ReadUleb(s: seq<byte>): (r: Option<(nat, seq<byte>)>)
    ensures r.Some? ==> |r.value.1| < |s|
  {
    if s == [] then None
    else if s[0] < 0x80 then Some((s[0], s[1..]))
    else
      var (v, rest) :- ReadUleb(s[1..]);
      Some((s[0] % 128 + 128 * v, rest))
  }

  function EncodeUleb(n: nat): (s: seq<byte>)
    ensures s != []
  {
    if n < 0x80 then [n] else [128 + n % 128] + EncodeUleb(n / 128)
  }

  lemma {:induction false} UlebRoundTrip(n: nat, rest: seq<byte>)
    ensures ReadUleb(EncodeUleb(n) + rest) == Some((n, rest))
  {
    var s := EncodeUleb(n) + rest;
    if n < 0x80 {
      assert s[1..] == rest;
    } else {
      assert s[1..] == EncodeUleb(n / 128) + rest;
      UlebRoundTrip(n / 128, rest);
    }
  }

  /** `x` shifted up by `groups` groups of seven bits. */
  function Shifted(x: nat, groups: nat): nat
    decreases groups
  {
    if groups == 0 then x else Shifted(128 * x, groups - 1)
  }

  lemma {:induction false} ShiftedAdds(x: nat, y: nat, groups: nat)
    ensures Shifted(x + y, groups) == Shifted(x, groups) + Shifted(y, groups)
    decreases groups
  {
    if groups > 0 {
      ShiftedAdds(128 * x, 128 * y, groups - 1);
    }
  }

  /** What is read so far, `shift` groups in, and what the rest will add. */
  function Resumed(r: nat, shift: nat, more: Option<(nat, seq<byte>)>): Option<(nat, seq<byte>)>
  {
    match more
    case None => None
    case Some((v, rest)) => Some((r + Shifted(v, shift), rest))
  }

  lemma ResumedStep(r: nat, shift: nat, s: seq<byte>)
    requires s != [] && s[0] >= 0x80
    ensures Resumed(r, shift, ReadUleb(s)) == Resumed(r + Shifted(s[0] % 128, shift), shift + 1, ReadUleb(s[1..]))
  {
    if ReadUleb(s[1..]).Some? {
      ShiftedAdds(s[0] % 128, 128 * ReadUleb(s[1..]).value.0, shift);
    }
  }

  method Uleb(b: seq<byte>, at: nat) returns (r: Option<(nat, nat)>)
    requires at <= |b|
    ensures match ReadUleb(b[at..])
            case None => r.None?
            case Some((v, rest)) => r.Some? && r.value.0 == v && at < r.value.1 <= |b| && b[r.value.1..] == rest
  {
    var o: nat, v: nat, shift: nat := at, 0, 0;
    ghost var want := ReadUleb(b[at..]);
    while true
      invariant at <= o <= |b| && Resumed(v, shift, ReadUleb(b[o..])) == want
      decreases |b| - o
    {
      if o == |b| {
        return None;
      }
      ghost var here := b[o..];
      var x := b[o];
      o := o + 1;
      assert here[1..] == b[o..];
      if x < 0x80 {
        return Some((v + Shifted(x, shift), o));
      }
      ResumedStep(v, shift, here);
      v := v + Shifted(x % 128, shift);
      shift := shift + 1;
    }
  }

  // ---------------------------------------------------------------- class data

  /** A method: its index, and where its code is (0 for none). */
  datatype Method = Method(index: nat, flags: nat, code: nat)

  /** Fields and methods as a class defines them, methods by their own index. */
  datatype ClassData = ClassData(statics: seq<(nat, nat)>, instances: seq<(nat, nat)>, directs: seq<Method>,
                                 virtuals: seq<Method>)

  /** Indices do not go down within a list: each is written as the difference from the one before. */
  predicate Ascending(ms: seq<Method>, from: nat)
  {
    ms == [] || (ms[0].index >= from && Ascending(ms[1..], ms[0].index))
  }

  /** A list may start at its least index and repeat one: every difference from 0 up can be written. */
  lemma {:induction false} AscendingExactly(ms: seq<Method>, from: nat)
    ensures Ascending(ms, from) <==>
            && (ms != [] ==> from <= ms[0].index)
            && forall i :: 0 < i < |ms| ==> ms[i - 1].index <= ms[i].index
  {
    if ms != [] {
      AscendingExactly(ms[1..], ms[0].index);
      assert forall i :: 0 < i < |ms| ==> ms[1..][i - 1] == ms[i];
      if forall i :: 0 < i < |ms| ==> ms[i - 1].index <= ms[i].index {
        forall i | 0 < i < |ms[1..]|
          ensures ms[1..][i - 1].index <= ms[1..][i].index
        {
          assert ms[i].index <= ms[i + 1].index;
        }
      }
      if Ascending(ms[1..], ms[0].index) {
        forall i | 0 < i < |ms|
          ensures ms[i - 1].index <= ms[i].index
        {
          assert i > 1 ==> ms[1..][i - 2].index <= ms[1..][i - 1].index;
        }
      }
    }
  }

  function EncodePairs(fs: seq<(nat, nat)>): seq<byte>
  {
    if fs == [] then [] else EncodeUleb(fs[0].0) + (EncodeUleb(fs[0].1) + EncodePairs(fs[1..]))
  }

  function EncodeMethods(ms: seq<Method>, from: nat): seq<byte>
    requires Ascending(ms, from)
  {
    if ms == [] then []
    else
      EncodeUleb(ms[0].index - from) +
      (EncodeUleb(ms[0].flags) + (EncodeUleb(ms[0].code) + EncodeMethods(ms[1..], ms[0].index)))
  }

  function EncodeClass(c: ClassData): seq<byte>
    requires Ascending(c.directs, 0) && Ascending(c.virtuals, 0)
  {
    EncodeUleb(|c.statics|) + (EncodeUleb(|c.instances|) + (EncodeUleb(|c.directs|) + (EncodeUleb(|c.virtuals|)
    + (EncodePairs(c.statics) +
      (EncodePairs(c.instances) + (EncodeMethods(c.directs, 0) + EncodeMethods(c.virtuals, 0)))))))
  }

  function SkipPairs(s: seq<byte>, n: nat): Option<seq<byte>>
    decreases n
  {
    if n == 0 then Some(s)
    else
      var (_, s1) :- ReadUleb(s);
      var (_, s2) :- ReadUleb(s1);
      SkipPairs(s2, n - 1)
  }

  /** The (index, code) of `n` methods, and the bytes after. */
  function ReadMethods(s: seq<byte>, n: nat, from: nat): Option<(seq<(nat, nat)>, seq<byte>)>
    decreases n
  {
    if n == 0 then Some(([], s))
    else
      var (d, s1) :- ReadUleb(s);
      var (_, s2) :- ReadUleb(s1);
      var (code, s3) :- ReadUleb(s2);
      var (more, rest) :- ReadMethods(s3, n - 1, from + d);
      Some(([(from + d, code)] + more, rest))
  }

  /** Every direct and then every virtual method, the index starting again from 0 at the first virtual one. */
  function Methods(s: seq<byte>): Option<seq<(nat, nat)>>
  {
    var (sf, s1) :- ReadUleb(s);
    var (inf, s2) :- ReadUleb(s1);
    var (dm, s3) :- ReadUleb(s2);
    var (vm, s4) :- ReadUleb(s3);
    var s5 :- SkipPairs(s4, sf + inf);
    var (direct, s6) :- ReadMethods(s5, dm, 0);
    var (virtual, _) :- ReadMethods(s6, vm, 0);
    Some(direct + virtual)
  }

  function Listed(ms: seq<Method>): seq<(nat, nat)>
  {
    seq(|ms|, i requires 0 <= i < |ms| => (ms[i].index, ms[i].code))
  }

  lemma {:induction false} PairsSkipped(fs: seq<(nat, nat)>, n: nat, rest: seq<byte>)
    ensures SkipPairs(EncodePairs(fs) + rest, |fs| + n) == SkipPairs(rest, n)
  {
    if fs == [] {
      assert EncodePairs(fs) + rest == rest;
    } else {
      var more := EncodePairs(fs[1..]) + rest;
      assert EncodePairs(fs) + rest == EncodeUleb(fs[0].0) + (EncodeUleb(fs[0].1) + more);
      UlebRoundTrip(fs[0].0, EncodeUleb(fs[0].1) + more);
      UlebRoundTrip(fs[0].1, more);
      PairsSkipped(fs[1..], n, rest);
    }
  }

  lemma {:induction false} MethodsRead(ms: seq<Method>, from: nat, rest: seq<byte>)
    requires Ascending(ms, from)
    ensures ReadMethods(EncodeMethods(ms, from) + rest, |ms|, from) == Some((Listed(ms), rest))
  {
    hide EncodeUleb, ReadUleb;
    if ms == [] {
      assert EncodeMethods(ms, from) + rest == rest;
    } else {
      var m := ms[0];
      var s3 := EncodeMethods(ms[1..], m.index) + rest;
      var s2 := EncodeUleb(m.code) + s3;
      var s1 := EncodeUleb(m.flags) + s2;
      assert EncodeMethods(ms, from) + rest == EncodeUleb(m.index - from) + s1;
      UlebRoundTrip(m.index - from, s1);
      UlebRoundTrip(m.flags, s2);
      UlebRoundTrip(m.code, s3);
      MethodsRead(ms[1..], m.index, rest);
      assert Listed(ms) == [(m.index, m.code)] + Listed(ms[1..]);
    }
  }

  /** Reading a class's data gives back every method with its own index and code, direct ones first. */
  lemma MethodsRoundTrip(c: ClassData, rest: seq<byte>)
    requires Ascending(c.directs, 0) && Ascending(c.virtuals, 0)
    ensures Methods(EncodeClass(c) + rest) == Some(Listed(c.directs) + Listed(c.virtuals))
  {
    hide EncodeUleb, EncodePairs, EncodeMethods, ReadMethods, SkipPairs, Listed, ReadUleb;
    var s6 := EncodeMethods(c.virtuals, 0) + rest;
    var s5 := EncodeMethods(c.directs, 0) + s6;
    var si := EncodePairs(c.instances) + s5;
    var s4 := EncodePairs(c.statics) + si;
    var s3 := EncodeUleb(|c.virtuals|) + s4;
    var s2 := EncodeUleb(|c.directs|) + s3;
    var s1 := EncodeUleb(|c.instances|) + s2;
    assert EncodeClass(c) + rest == EncodeUleb(|c.statics|) + s1;
    UlebRoundTrip(|c.statics|, s1);
    UlebRoundTrip(|c.instances|, s2);
    UlebRoundTrip(|c.directs|, s3);
    UlebRoundTrip(|c.virtuals|, s4);
    AllPairsSkipped(c.statics, c.instances, s5);
    MethodsRead(c.directs, 0, s6);
    MethodsRead(c.virtuals, 0, rest);
  }

  lemma AllPairsSkipped(xs: seq<(nat, nat)>, ys: seq<(nat, nat)>, rest: seq<byte>)
    ensures SkipPairs(EncodePairs(xs) + (EncodePairs(ys) + rest), |xs| + |ys|) == Some(rest)
  {
    hide EncodePairs, ReadUleb, SkipPairs;
    var more := EncodePairs(ys) + rest;
    PairsSkipped(xs, |ys|, more);
    PairsSkipped(ys, 0, rest);
    NoneSkipped(rest);
  }

  lemma NoneSkipped(rest: seq<byte>)
    ensures SkipPairs(rest, 0) == Some(rest)
  {
  }

  // ---------------------------------------------------------------- the reader

  /** What the one loop over all methods has still to give: the index starts again at method `dm`. */
  function FromMethod(s: seq<byte>, k: nat, dm: nat, n: nat, idx: nat): Option<seq<(nat, nat)>>
    requires k <= n
    decreases n - k
  {
    if k == n then Some([])
    else
      var from := if k == dm then 0 else idx;
      var (d, s1) :- ReadUleb(s);
      var (_, s2) :- ReadUleb(s1);
      var (code, s3) :- ReadUleb(s2);
      var more :- FromMethod(s3, k + 1, dm, n, from + d);
      Some([(from + d, code)] + more)
  }

  /** The virtual methods: past the restart, the one loop is the second list's. */
  lemma {:induction false} VirtualTail(s: seq<byte>, k: nat, dm: nat, n: nat, idx: nat)
    requires dm <= k <= n
    ensures var r := ReadMethods(s, n - k, if k == dm then 0 else idx);
            FromMethod(s, k, dm, n, idx) == if r.None? then None else Some(r.value.0)
    decreases n - k
  {
    hide ReadUleb;
    if k < n {
      var from := if k == dm then 0 else idx;
      if ReadUleb(s).Some? {
        var (d, s1) := ReadUleb(s).value;
        if ReadUleb(s1).Some? && ReadUleb(ReadUleb(s1).value.1).Some? {
          VirtualTail(ReadUleb(ReadUleb(s1).value.1).value.1, k + 1, dm, n, from + d);
        }
      }
    }
  }

  /** Two lists read one after the other. */
  function Both(first: Option<(seq<(nat, nat)>, seq<byte>)>, n: nat): Option<seq<(nat, nat)>>
  {
    var (xs, s) :- first;
    var (ys, _) :- ReadMethods(s, n, 0);
    Some(xs + ys)
  }

  lemma BothStep(x: (nat, nat), rest: Option<(seq<(nat, nat)>, seq<byte>)>, n: nat)
    ensures Both(if rest.None? then None else Some(([x] + rest.value.0, rest.value.1)), n)
         == if Both(rest, n).None? then None else Some([x] + Both(rest, n).value)
  {
    if rest.Some? && ReadMethods(rest.value.1, n, 0).Some? {
      assert ([x] + rest.value.0) + ReadMethods(rest.value.1, n, 0).value.0 ==
             [x] + (rest.value.0 + ReadMethods(rest.value.1, n, 0).value.0);
    }
  }

  lemma {:induction false} OneLoop(s: seq<byte>, k: nat, dm: nat, vm: nat, idx: nat)
    requires k <= dm
    ensures FromMethod(s, k, dm, dm + vm, idx) == Both(ReadMethods(s, dm - k, idx), vm)
    decreases dm - k
  {
    hide ReadUleb;
    if k == dm {
      VirtualTail(s, dm, dm, dm + vm, idx);
      OnlyVirtual(s, vm);
    } else if ReadUleb(s).Some? {
      var (d, s1) := ReadUleb(s).value;
      if ReadUleb(s1).Some? && ReadUleb(ReadUleb(s1).value.1).Some? {
        var (code, s3) := ReadUleb(ReadUleb(s1).value.1).value;
        OneLoop(s3, k + 1, dm, vm, idx + d);
        BothStep((idx + d, code), ReadMethods(s3, dm - k - 1, idx + d), vm);
      }
    }
  }

  lemma OnlyVirtual(s: seq<byte>, vm: nat)
    ensures var r := ReadMethods(s, vm, 0);
            Both(Some(([], s)), vm) == if r.None? then None else Some(r.value.0)
  {
    if ReadMethods(s, vm, 0).Some? {
      assert [] + ReadMethods(s, vm, 0).value.0 == ReadMethods(s, vm, 0).value.0;
    }
  }

  /** The offset after `n` pairs of numbers. */
  method Skip(b: seq<byte>, at: nat, n: nat) returns (r: Option<nat>)
    requires at <= |b|
    ensures match SkipPairs(b[at..], n)
            case None => r.None?
            case Some(rest) => r.Some? && r.value <= |b| && b[r.value..] == rest
  {
    hide ReadUleb;
    var o: nat := at;
    for i := 0 to n
      invariant o <= |b| && SkipPairs(b[o..], n - i) == SkipPairs(b[at..], n)
    {
      var u1 :- Uleb(b, o);
      var u2 :- Uleb(b, u1.1);
      o := u2.1;
    }
    return Some(o);
  }

  /** The methods from `at` on, by one loop over direct and virtual ones together. */
  method MethodLoop(b: seq<byte>, at: nat, dm: nat, vm: nat) returns (r: Option<seq<(nat, nat)>>)
    requires at <= |b|
    ensures r == FromMethod(b[at..], 0, dm, dm + vm, 0)
  {
    hide ReadUleb;
    var out: seq<(nat, nat)> := [];
    var o: nat, idx: nat := at, 0;
    BeforeAll(FromMethod(b[at..], 0, dm, dm + vm, 0));
    for k := 0 to dm + vm
      invariant o <= |b|
      invariant Before(out, FromMethod(b[o..], k, dm, dm + vm, idx)) == FromMethod(b[at..], 0, dm, dm + vm, 0)
    {
      if k == dm {
        idx := 0;
      }
      var u1 :- Uleb(b, o);
      var u2 :- Uleb(b, u1.1);
      var u3 :- Uleb(b, u2.1);
      BeforeOne(out, (idx + u1.0, u3.0), FromMethod(b[u3.1..], k + 1, dm, dm + vm, idx + u1.0));
      idx := idx + u1.0;
      out := out + [(idx, u3.0)];
      o := u3.1;
    }
    assert out + [] == out;
    return Some(out);
  }

  /** Every method of the class whose data is at `data`. */
  method ListMethods(b: seq<byte>, data: nat) returns (r: Option<seq<(nat, nat)>>)
    requires data <= |b|
    ensures r == Methods(b[data..])
  {
    hide ReadUleb, SkipPairs, ReadMethods, FromMethod;
    var u1 :- Uleb(b, data);
    var u2 :- Uleb(b, u1.1);
    var u3 :- Uleb(b, u2.1);
    var u4 :- Uleb(b, u3.1);
    var o5 :- Skip(b, u4.1, u1.0 + u2.0);
    OneLoop(b[o5..], 0, u3.0, u4.0, 0);
    r := MethodLoop(b, o5, u3.0, u4.0);
  }
}
