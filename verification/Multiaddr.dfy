/** Binary multiaddrs: a sequence of components, each a protocol code and its value. */
module Multiaddr {
  import opened Bytes
  import Varint
  import Multihash

  const IP4: nat := 0x04
  const IP6: nat := 0x29
  const UDP: nat := 0x0111
  const P2P: nat := 0x01A5
  const QUIC_V1: nat := 0x01CD

  datatype Class = NoValue | Fixed(size: nat) | Variable

  /** The protocol table */
  function ClassOf(code: nat): Option<Class> {
    if code == IP4 then Some(Fixed(4))
    else if code == IP6 then Some(Fixed(16))
    else if code == UDP then Some(Fixed(2))
    else if code == QUIC_V1 then Some(NoValue)
    else if code == P2P then Some(Variable)
    else None
  }

  datatype Component = Component(code: nat, value: seq<byte>)

  datatype Error = Truncated | Malformed | UnsupportedProtocol | InvalidValue | BufTooSmall | NotFound
  datatype Next = End | Failed(error: Error) | Got(component: Component, read: nat)

  function VarintError(r: Varint.Result): Error {
    if r.Truncated? then Truncated else Malformed
  }

  /** libp2p_multiaddr_next_component, on what is left of the buffer */
  function NextComponent(s: seq<byte>): Next {
    if s == [] then End
    else
      var c := Varint.Decode(s);
      if !c.Ok? then Failed(VarintError(c))
      else if c.read > |s| then Failed(Truncated)
      else
        match ClassOf(c.value)
        case None => Failed(UnsupportedProtocol)
        case Some(NoValue) => Got(Component(c.value, []), c.read)
        case Some(Fixed(n)) =>
          if |s| - c.read < n then Failed(Truncated) else Got(Component(c.value, s[c.read..c.read + n]), c.read + n)
        case Some(Variable) =>
          var n := Varint.Decode(s[c.read..]);
          if !n.Ok? then Failed(VarintError(n))
          else if c.read + n.read + n.value > |s| then Failed(Truncated)
          else Got(Component(c.value, s[c.read + n.read..c.read + n.read + n.value]), c.read + n.read + n.value)
  }

  /** Values of the length that their protocol demands. */
  predicate Fits(c: Component) {
    match ClassOf(c.code)
    case None => false
    case Some(NoValue) => c.value == []
    case Some(Fixed(n)) => |c.value| == n
    case Some(Variable) => |c.value| < Varint.LIMIT
  }

  predicate Valid(c: Component) {
    Fits(c) && (c.code == P2P ==> Multihash.Whole(c.value))
  }

  predicate AllValid(cs: seq<Component>) {
    forall i :: 0 <= i < |cs| ==> Valid(cs[i])
  }

  /** The bytes that libp2p_multiaddr_append_component writes */
  function ToBytes(c: Component): (s: seq<byte>)
    ensures |s| >= 1
  {
    Varint.Encode(c.code) + (if ClassOf(c.code) == Some(Variable) then Varint.Encode(|c.value|) else []) + c.value
  }

  function Flatten(cs: seq<Component>): (s: seq<byte>)
    ensures cs != [] ==> |s| >= 1
  {
    if cs == [] then [] else ToBytes(cs[0]) + Flatten(cs[1..])
  }

  // ------------------------------------------------------------------ one component

  lemma NextOfBytes(c: Component, rest: seq<byte>)
    requires Fits(c)
    ensures NextComponent(ToBytes(c) + rest) == Got(c, |ToBytes(c)|)
  {
    var a := Varint.Encode(c.code);
    var s := ToBytes(c) + rest;
    if ClassOf(c.code) == Some(Variable) {
      var b := Varint.Encode(|c.value|);
      assert s == a + (b + (c.value + rest));
      Varint.RoundTrip(c.code, b + (c.value + rest));
      assert s[|a|..] == b + (c.value + rest);
      Varint.RoundTrip(|c.value|, c.value + rest);
      hide Varint.Encode, Varint.Decode;
    } else {
      assert s == a + (c.value + rest);
      Varint.RoundTrip(c.code, c.value + rest);
      hide Varint.Encode, Varint.Decode;
    }
  }

  lemma ThreeParts(s: seq<byte>, a: nat, b: nat, n: nat)
    requires a + b + n <= |s|
    ensures s[..a + b + n] == s[..a] + s[a..][..b] + s[a + b..a + b + n]
  {
  }

  lemma NextCanonical(s: seq<byte>)
    requires NextComponent(s).Got?
    ensures
      var r := NextComponent(s);
      Fits(r.component) && r.read == |ToBytes(r.component)| <= |s| && s[..r.read] == ToBytes(r.component)
  {
    var c := Varint.Decode(s);
    Varint.Canonical(s);
    if ClassOf(c.value) == Some(Variable) {
      var n := Varint.Decode(s[c.read..]);
      Varint.Canonical(s[c.read..]);
      hide Varint.Encode, Varint.Decode;
      ThreeParts(s, c.read, n.read, n.value);
    } else {
      hide Varint.Encode, Varint.Decode;
      ThreeParts(s, c.read, 0, NextComponent(s).read - c.read);
      assert s[c.read..][..0] == [];
    }
  }

  // --------------------------------------------------------------------- validation

  datatype Checked = Ok(components: seq<Component>) | Bad(error: Error)

  /** libp2p_multiaddr_validate, with the components it saw */
  function Validate(s: seq<byte>): Checked
    decreases |s|
  {
    match NextComponent(s)
    case End => Ok([])
    case Failed(e) => Bad(e)
    case Got(c, n) =>
      if c.code == P2P && !Multihash.Whole(c.value) then Bad(Malformed)
      else
        NextCanonical(s);
        match Validate(s[n..])
        case Ok(cs) => Ok([c] + cs)
        case bad => bad
  }

  /** A valid multiaddr is exactly the concatenation of its components. */
  lemma {:induction false} ValidateSound(s: seq<byte>)
    requires Validate(s).Ok?
    ensures AllValid(Validate(s).components) && Flatten(Validate(s).components) == s
    decreases |s|
  {
    if NextComponent(s).Got? {
      var n := NextComponent(s).read;
      NextCanonical(s);
      ValidateSound(s[n..]);
      hide NextComponent, ToBytes;
      assert s == s[..n] + s[n..];
    }
  }

  lemma {:induction false} ValidateComplete(cs: seq<Component>)
    requires AllValid(cs)
    ensures Validate(Flatten(cs)) == Ok(cs)
  {
    if cs != [] {
      var s := Flatten(cs);
      NextOfBytes(cs[0], Flatten(cs[1..]));
      ValidateComplete(cs[1..]);
      assert s[|ToBytes(cs[0])|..] == Flatten(cs[1..]);
      hide NextComponent, ToBytes;
      assert [cs[0]] + cs[1..] == cs;
    }
  }

  lemma FlattenCons(c: Component, cs: seq<Component>)
    ensures Flatten([c] + cs) == ToBytes(c) + Flatten(cs)
  {
    hide ToBytes;
    assert ([c] + cs)[1..] == cs;
  }

  lemma {:induction false} FlattenConcat(a: seq<Component>, b: seq<Component>)
    ensures Flatten(a + b) == Flatten(a) + Flatten(b)
  {
    hide ToBytes, Flatten;
    EmptyFlatten(a);
    if a == [] {
      assert a + b == b && Flatten(a) + Flatten(b) == Flatten(b);
    } else {
      var c, t := a[0], a[1..];
      FlattenConcat(t, b);
      assert a == [c] + t && a + b == [c] + (t + b);
      FlattenCons(c, t);
      FlattenCons(c, t + b);
      assert (ToBytes(c) + Flatten(t)) + Flatten(b) == ToBytes(c) + (Flatten(t) + Flatten(b));
    }
  }

  /** The encoding of a component is not a proper prefix of another's. */
  lemma HeadsAgree(c: Component, s: seq<byte>, d: Component, t: seq<byte>)
    requires Fits(c) && Fits(d) && ToBytes(c) + s <= ToBytes(d) + t
    ensures c == d && s <= t
  {
    hide ToBytes, NextComponent, Fits;
    var w := ToBytes(d) + t;
    var n := |ToBytes(c)|;
    assert w == ToBytes(c) + w[n..];
    NextOfBytes(c, w[n..]);
    NextOfBytes(d, t);
    assert (ToBytes(c) + s)[n..] == s && w[n..] == t;
  }

  lemma {:induction false} PrefixDown(inner: seq<Component>, outer: seq<Component>)
    requires AllValid(inner) && AllValid(outer) && Flatten(inner) <= Flatten(outer)
    ensures inner <= outer
  {
    EmptyFlatten(outer);
    if inner != [] && outer != [] {
      HeadsAgree(inner[0], Flatten(inner[1..]), outer[0], Flatten(outer[1..]));
      hide ToBytes, Fits;
      PrefixDown(inner[1..], outer[1..]);
      assert inner == [inner[0]] + inner[1..] && outer == [outer[0]] + outer[1..];
    }
  }

  /** Byte prefixes at component boundaries are component prefixes. */
  lemma PrefixesAgree(inner: seq<Component>, outer: seq<Component>)
    requires AllValid(inner) && AllValid(outer)
    ensures Flatten(inner) <= Flatten(outer) <==> inner <= outer
  {
    hide Flatten, ToBytes, AllValid;
    if Flatten(inner) <= Flatten(outer) { PrefixDown(inner, outer); }
    if inner <= outer {
      assert outer == inner + outer[|inner|..];
      FlattenConcat(inner, outer[|inner|..]);
    }
  }

  // ------------------------------------------------------- encapsulate and decapsulate

  datatype Result = Done(bytes: seq<byte>) | Refused(error: Error)

  /** libp2p_multiaddr_encapsulate */
  function Encapsulate(a: seq<byte>, b: seq<byte>): Result {
    if Validate(a).Bad? then Refused(Validate(a).error)
    else if Validate(b).Bad? then Refused(Validate(b).error)
    else Done(a + b)
  }

  /** The last offset at or after `at` where a component of `s` starts and the bytes of `inner` follow. */
  function LastMatch(s: seq<byte>, inner: seq<byte>, at: nat, found: Option<nat>): Option<nat>
    decreases |s|
  {
    match NextComponent(s)
    case Got(_, n) =>
      NextCanonical(s);
      LastMatch(s[n..], inner, at + n, if inner <= s then Some(at) else found)
    case _ => found
  }

  /** libp2p_multiaddr_decapsulate */
  function Decapsulate(outer: seq<byte>, inner: seq<byte>): Result {
    if Validate(outer).Bad? then Refused(Validate(outer).error)
    else if Validate(inner).Bad? then Refused(Validate(inner).error)
    else if inner == [] then Done(outer)
    else
      match LastMatch(outer, inner, 0, None)
      case Some(k) => if k <= |outer| then Done(outer[..k]) else Refused(NotFound)
      case None => Refused(NotFound)
  }

  /** The last index from which `inner` occurs as consecutive components. */
  ghost predicate LastOccurrence(outer: seq<Component>, inner: seq<Component>, i: nat) {
    && i < |outer| && inner <= outer[i..]
    && forall j :: i < j < |outer| ==> !(inner <= outer[j..])
  }

  /** The last index at or after k from which `inner` occurs. */
  function LastFrom(outer: seq<Component>, inner: seq<Component>, k: nat): Option<nat>
    decreases |outer| - k
  {
    if k >= |outer| then None
    else
      match LastFrom(outer, inner, k + 1)
      case Some(i) => Some(i)
      case None => if inner <= outer[k..] then Some(k) else None
  }

  lemma {:induction false} LastFromIs(outer: seq<Component>, inner: seq<Component>, k: nat)
    ensures
      match LastFrom(outer, inner, k)
      case Some(i) => k <= i && LastOccurrence(outer, inner, i)
      case None => forall j :: k <= j < |outer| ==> !(inner <= outer[j..])
    decreases |outer| - k
  {
    if k < |outer| { LastFromIs(outer, inner, k + 1); }
  }

  lemma LastMatchStep(c: Component, rest: seq<byte>, inner: seq<byte>, at: nat, found: Option<nat>)
    requires Fits(c)
    ensures LastMatch(ToBytes(c) + rest, inner, at, found)
         == LastMatch(rest, inner, at + |ToBytes(c)|, if inner <= ToBytes(c) + rest then Some(at) else found)
  {
    hide ToBytes, NextComponent, Fits;
    NextOfBytes(c, rest);
    assert (ToBytes(c) + rest)[|ToBytes(c)|..] == rest;
    assert LastMatch(ToBytes(c) + rest, inner, at, found) ==
      LastMatch((ToBytes(c) + rest)[|ToBytes(c)|..], inner, at + |ToBytes(c)|,
                if inner <= ToBytes(c) + rest then Some(at) else found);
  }

  lemma FlattenStep(cs: seq<Component>, k: nat)
    requires k < |cs|
    ensures Flatten(cs[k..]) == ToBytes(cs[k]) + Flatten(cs[k + 1..])
    ensures |Flatten(cs[..k + 1])| == |Flatten(cs[..k])| + |ToBytes(cs[k])|
  {
    hide ToBytes;
    assert cs[k..][1..] == cs[k + 1..];
    assert cs[..k + 1] == cs[..k] + [cs[k]];
    FlattenConcat(cs[..k], [cs[k]]);
    assert Flatten([cs[k]]) == ToBytes(cs[k]);
  }

  /** The scan over bytes finds what the scan over components finds. */
  lemma {:induction false} LastMatchIs(outer: seq<Component>, inner: seq<Component>, k: nat, at: nat,
                                       found: Option<nat>)
    requires AllValid(outer) && AllValid(inner) && k <= |outer| && at == |Flatten(outer[..k])|
    ensures LastFrom(outer, inner, k).None? ==> LastMatch(Flatten(outer[k..]), Flatten(inner), at, found) == found
    ensures LastFrom(outer, inner, k).Some? ==>
      var i := LastFrom(outer, inner, k).value;
      i <= |outer| && LastMatch(Flatten(outer[k..]), Flatten(inner), at, found) == Some(|Flatten(outer[..i])|)
    decreases |outer| - k
  {
    hide Flatten, ToBytes, LastMatch, Valid;
    LastMatchNothing(Flatten(inner), at, found);
    EmptyFlatten([]);
    if k < |outer| {
      FlattenStep(outer, k);
      PrefixesAgree(inner, outer[k..]);
      FitsAt(outer, k);
      LastMatchStep(outer[k], Flatten(outer[k + 1..]), Flatten(inner), at, found);
      LastMatchIs(outer, inner, k + 1, at + |ToBytes(outer[k])|, if inner <= outer[k..] then Some(at) else found);
    } else {
      assert outer[k..] == [];
    }
  }

  lemma FitsAt(cs: seq<Component>, k: nat)
    requires AllValid(cs) && k < |cs|
    ensures Fits(cs[k])
  {
  }

  lemma LastMatchNothing(inner: seq<byte>, at: nat, found: Option<nat>)
    ensures LastMatch([], inner, at, found) == found
  {
  }

  /** decapsulate drops the suffix from the last occurrence of inner as consecutive components, and nothing else. */
  lemma DecapsulateExactly(outer: seq<Component>, inner: seq<Component>)
    requires AllValid(outer) && AllValid(inner) && inner != []
    ensures
      match Decapsulate(Flatten(outer), Flatten(inner))
      case Done(bytes) => exists i: nat :: LastOccurrence(outer, inner, i) && bytes == Flatten(outer[..i])
      case Refused(e) => e == NotFound && forall j :: 0 <= j < |outer| ==> !(inner <= outer[j..])
  {
    hide LastMatch, Validate, ToBytes, LastFrom;
    ValidateComplete(outer);
    ValidateComplete(inner);
    assert outer[0..] == outer && outer[..0] == [];
    EmptyFlatten([]);
    LastMatchIs(outer, inner, 0, 0, None);
    LastFromIs(outer, inner, 0);
    var r := LastFrom(outer, inner, 0);
    if r.Some? { SplitAt(outer, r.value); }
  }

  lemma SplitAt(cs: seq<Component>, i: nat)
    requires i <= |cs|
    ensures |Flatten(cs[..i])| <= |Flatten(cs)| && Flatten(cs)[..|Flatten(cs[..i])|] == Flatten(cs[..i])
  {
    assert cs == cs[..i] + cs[i..];
    FlattenConcat(cs[..i], cs[i..]);
  }

  /** decapsulate(encapsulate(a, b), b) = a, for all valid a and b. */
  lemma DecapsulateUndoes(a: seq<byte>, b: seq<byte>)
    requires Validate(a).Ok? && Validate(b).Ok?
    ensures Encapsulate(a, b).Done? && Decapsulate(Encapsulate(a, b).bytes, b) == Done(a)
  {
    hide Validate, ToBytes, Flatten;
    var cs, ds := Validate(a).components, Validate(b).components;
    ValidateSound(a);
    ValidateSound(b);
    FlattenConcat(cs, ds);
    ValidateComplete(cs + ds);
    assert (cs + ds)[|cs|..] == ds && (cs + ds)[..|cs|] == cs;
    if b == [] {
      assert a + b == a;
    } else {
      EmptyFlatten(ds);
      DecapsulateExactly(cs + ds, ds);
      OnlyAtTheEnd(cs, ds);
    }
  }

  lemma EmptyFlatten(ds: seq<Component>)
    ensures Flatten(ds) == [] <==> ds == []
  {
  }

  lemma OnlyAtTheEnd(cs: seq<Component>, ds: seq<Component>)
    requires ds != []
    ensures ds <= (cs + ds)[|cs|..] && |cs| < |cs + ds|
    ensures forall i: nat :: LastOccurrence(cs + ds, ds, i) ==> i == |cs|
  {
    assert (cs + ds)[|cs|..] == ds;
    forall i: nat | LastOccurrence(cs + ds, ds, i) ensures i == |cs| {
      assert |ds| <= |(cs + ds)[i..]|;
    }
  }
}
