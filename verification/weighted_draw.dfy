/** Draws by prefix sums: the weighted choice of a replica, and the choice of a passive FTP port. */
module WeightedDraw {

  import opened Wrappers
  import opened Strings

  const UINT64_RANGE: int := 0x1_0000_0000_0000_0000

  type uint64 = n: int | 0 <= n < UINT64_RANGE

  /** The exact sum of the first `n` weights. */
  function Prefix(weights: seq<nat>, n: nat): nat
    requires n <= |weights|
  {
    if n == 0 then 0 else Prefix(weights, n - 1) + weights[n - 1]
  }

  lemma {:induction false} PrefixMonotone(weights: seq<nat>, i: nat, j: nat)
    requires i <= j <= |weights|
    ensures Prefix(weights, i) <= Prefix(weights, j)
  {
    if i < j {
      PrefixMonotone(weights, i, j - 1);
    }
  }

  /** At most one index owns a draw. */
  lemma OwnerUnique(weights: seq<nat>, i: nat, j: nat, r: int)
    requires i < |weights| && j < |weights|
    requires Owns(weights, i, r) && Owns(weights, j, r)
    ensures i == j
  {
    if i < j {
      PrefixMonotone(weights, i + 1, j);
    } else if j < i {
      PrefixMonotone(weights, j + 1, i);
    }
  }

  /** The total as the program computes it, wrapping around. */
  function Total(weights: seq<nat>): uint64 {
    Prefix(weights, |weights|) % UINT64_RANGE
  }

  lemma WrapAdd(sum: nat, w: nat)
    ensures (sum % UINT64_RANGE + w) % UINT64_RANGE == (sum + w) % UINT64_RANGE
  {
  }

  lemma PrefixNext(weights: seq<nat>, i: nat)
    requires i < |weights|
    ensures Prefix(weights, i + 1) == Prefix(weights, i) + weights[i]
    ensures Prefix(weights, 0) == 0
  {
  }

  /** The wrapped total never exceeds the sum, and is zero for nothing. */
  lemma TotalWithin(weights: seq<nat>)
    ensures Total(weights) == Prefix(weights, |weights|) % UINT64_RANGE <= Prefix(weights, |weights|)
    ensures weights == [] ==> Prefix(weights, 0) == 0
  {
  }

  /** selectRandom with the random number as a parameter. */
  method SelectRandom(weights: seq<uint64>, draw: uint64) returns (idx: nat, ok: bool)
    ensures ok <==> Total(weights) != 0
    ensures ok ==>
      && idx < |weights| && weights[idx] > 0
      && Owns(weights, idx, draw % Total(weights))
  {
    hide Prefix, Total;
    idx, ok := 0, false;
    var total: uint64 := 0;
    var i := 0;
    TotalWithin(weights);
    if weights != [] {
      PrefixNext(weights, 0);
    }
    while i < |weights|
      invariant i <= |weights| && total == Prefix(weights, i) % UINT64_RANGE
    {
      PrefixNext(weights, i);
      WrapAdd(Prefix(weights, i), weights[i]);
      total := (total + weights[i]) % UINT64_RANGE;
      i := i + 1;
    }
    if total == 0 {
      return 0, false;
    }
    var r: uint64 := draw % total;
    ghost var start := r;
    i := 0;
    while i < |weights|
      invariant i <= |weights| && start == r + Prefix(weights, i) < total
    {
      PrefixNext(weights, i);
      var w := weights[i];
      if r < w {
        return i, true;
      }
      r := r - w;
      i := i + 1;
    }
    // not reached: the draw is below the sum of the weights
    assert false;
  }

  // ----- fairness -----

  /** The part of the number line that belongs to item `i`. */
  predicate Owns(weights: seq<nat>, i: nat, r: int)
    requires i < |weights|
  {
    Prefix(weights, i) <= r < Prefix(weights, i + 1)
  }

  /** The random numbers below the total for which `i` is chosen. */
  ghost function Draws(weights: seq<nat>, i: nat): set<int>
    requires i < |weights|
  {
    set r: int | 0 <= r < Total(weights) && Owns(weights, i, r)
  }

  lemma {:induction false} IntervalSize(s: set<int>, lo: int, hi: int)
    requires lo <= hi && forall r :: r in s <==> lo <= r < hi
    ensures |s| == hi - lo
    decreases hi - lo
  {
    if lo == hi {
      assert forall r :: r !in s;
      assert s == {};
    } else {
      var t := s - {hi - 1};
      IntervalSize(t, lo, hi - 1);
      assert s == t + {hi - 1};
    }
  }

  function Min(a: int, b: int): int {
    if a <= b then a else b
  }

  lemma DrawCount(weights: seq<nat>, i: nat)
    requires i < |weights|
    ensures |Draws(weights, i)| == Min(Prefix(weights, i + 1), Total(weights)) - Min(Prefix(weights, i), Total(weights))
  {
    var total := Total(weights);
    PrefixMonotone(weights, 0, i);
    IntervalSize(Draws(weights, i), Min(Prefix(weights, i), total), Min(Prefix(weights, i + 1), total));
  }

  lemma {:induction false} Crossing(weights: seq<nat>, n: nat, bound: int) returns (i: nat)
    requires n <= |weights| && 0 <= bound < Prefix(weights, n)
    ensures i < n && Prefix(weights, i) <= bound < Prefix(weights, i + 1)
  {
    if Prefix(weights, n - 1) <= bound {
      i := n - 1;
    } else {
      i := Crossing(weights, n - 1, bound);
    }
  }

  /** Every item is drawn exactly as often as it weighs, exactly when the sum of the weights does not wrap. */
  lemma FairExactly(weights: seq<nat>)
    ensures (forall i: nat | i < |weights| :: |Draws(weights, i)| == weights[i])
            <==> Prefix(weights, |weights|) < UINT64_RANGE
  {
    var total, sum := Total(weights), Prefix(weights, |weights|);
    if sum < UINT64_RANGE {
      assert total == sum;
      forall i: nat | i < |weights| ensures |Draws(weights, i)| == weights[i] {
        DrawCount(weights, i);
        PrefixMonotone(weights, i, |weights|);
        PrefixMonotone(weights, i + 1, |weights|);
      }
    } else {
      assert total < sum;
      var i := Crossing(weights, |weights|, total);
      DrawCount(weights, i);
      assert |Draws(weights, i)| < weights[i];
    }
  }

  // ----- passive ports -----

  datatype Group = Group(exposedStart: int, listenedStart: int, length: nat)

  predicate IsDigit(c: char) {
    '0' <= c <= '9'
  }

  function Decimal(s: string): nat
    requires forall i | 0 <= i < |s| :: IsDigit(s[i])
  {
    if s == [] then 0
    else
      assert IsDigit(s[|s| - 1]);
      10 * Decimal(s[..|s| - 1]) + (s[|s| - 1] - '0') as nat
  }

  /** strconv.Atoi on 64 bits. */
  function Atoi(s: string): (r: Option<int>)
    ensures r.Some? ==> -0x8000_0000_0000_0000 <= r.value < 0x8000_0000_0000_0000
  {
    var digits := if s != [] && (s[0] == '+' || s[0] == '-') then s[1..] else s;
    if digits == [] || exists i | 0 <= i < |digits| :: !IsDigit(digits[i]) then None
    else
      var n: int := if s[0] == '-' then 0 - Decimal(digits) else Decimal(digits);
      if -0x8000_0000_0000_0000 <= n < 0x8000_0000_0000_0000 then Some(n) else None
  }

  /** Start and length of a port or a range of ports; only ranges are checked against the unprivileged ports. */
  function ConvertToPorts(text: string): (r: Option<(int, nat)>)
    ensures r.Some? ==> r.value.1 > 0
  {
    match Cut(text, '-')
    case None =>
      (match Atoi(text)
       case None => None
       case Some(port) => Some((port, 1)))
    case Some((start, end)) =>
      match (Atoi(start), Atoi(end))
      case (Some(si), Some(ei)) =>
        if ei < si || ei < 1024 || si < 1024 || ei > 65535 || si > 65535 then None else Some((si, ei - si + 1))
      case _ => None
  }

  /** What one piece of the setting stands for: ports, or exposed ports and the ports listened on. */
  function GroupOf(mapper: string): (g: Option<Group>)
    ensures g.Some? ==> g.value.length > 0
  {
    match Cut(mapper, ':')
    case None =>
      (match ConvertToPorts(mapper)
       case None => None
       case Some((start, length)) => Some(Group(start, start, length)))
    case Some((exposed, listened)) =>
      match (ConvertToPorts(exposed), ConvertToPorts(listened))
      case (Some((es, el)), Some((ls, ll))) => if el != ll then None else Some(Group(es, ls, el))
      case _ => None
  }

  // ----- a setting that is written is read back -----

  function Digits(n: nat): (s: string)
    ensures s != [] && forall i | 0 <= i < |s| :: IsDigit(s[i])
  {
    (if n < 10 then [] else Digits(n / 10)) + [('0' as int + n % 10) as char]
  }

  lemma {:induction false} DecimalDigits(n: nat)
    ensures Decimal(Digits(n)) == n
  {
    var s := Digits(n);
    if n < 10 {
      assert s[..|s| - 1] == [] && Decimal([]) == 0;
    } else {
      DecimalDigits(n / 10);
      assert s[..|s| - 1] == Digits(n / 10);
    }
  }

  lemma AtoiDigits(n: nat)
    requires n < 0x8000_0000_0000_0000
    ensures Atoi(Digits(n)) == Some(n)
  {
    hide Decimal;
    DecimalDigits(n);
    assert IsDigit(Digits(n)[0]);
  }

  lemma DigitsPlain(n: nat, c: char)
    requires !IsDigit(c)
    ensures c !in Digits(n)
  {
  }

  /** A single port is taken as it is. A range is taken exactly when it does not end before it starts and both ends are
      unprivileged ports. */
  lemma PortsExactly(start: nat, end: nat)
    requires start < 0x8000_0000_0000_0000 && end < 0x8000_0000_0000_0000
    ensures ConvertToPorts(Digits(start)) == Some((start, 1))
    ensures ConvertToPorts(Digits(start) + "-" + Digits(end))
            == if 1024 <= start <= end <= 65535 then Some((start, end - start + 1)) else None
  {
    hide Digits, Atoi, Decimal;
    DigitsPlain(start, '-');
    AtoiDigits(start);
    AtoiDigits(end);
    CutNone(Digits(start), '-');
    assert Digits(start) + "-" + Digits(end) == Digits(start) + ['-'] + Digits(end);
    CutFirst(Digits(start), Digits(end), '-');
  }

  /** Ports in front of a colon are those shown to the client, ports behind it those listened on; both must be usable and
      as many. Without a colon they are the same. */
  lemma GroupExactly(exposed: string, listened: string)
    requires ':' !in exposed
    ensures var e, l := ConvertToPorts(exposed), ConvertToPorts(listened);
            && GroupOf(exposed) == (if e.None? then None else Some(Group(e.value.0, e.value.0, e.value.1)))
            && GroupOf(exposed + ":" + listened)
               == if e.Some? && l.Some? && e.value.1 == l.value.1 then Some(Group(e.value.0, l.value.0, e.value.1)) else None
  {
    hide ConvertToPorts;
    CutNone(exposed, ':');
    assert exposed + ":" + listened == exposed + [':'] + listened;
    CutFirst(exposed, listened, ':');
  }

  /** The pieces of the setting, separated by commas or line feeds. */
  function Pieces(text: string): (r: seq<string>)
    ensures r != []
  {
    Split(Replace(text, '\n', ','), ',')
  }

  function Lengths(groups: seq<Group>): (r: seq<nat>)
    ensures |r| == |groups| && forall i | 0 <= i < |groups| :: r[i] == groups[i].length
  {
    seq(|groups|, i requires 0 <= i < |groups| => groups[i].length)
  }

  class PasvPortGetter {
    var groups: seq<Group>
    var totalLength: nat

    ghost predicate Valid()
      reads this
    {
      totalLength == Prefix(Lengths(groups), |groups|)
    }

    constructor ()
      ensures groups == [] && totalLength == 0
    {
      groups, totalLength := [], 0;
    }

    /** FetchNext with the random number as a parameter. */
    method FetchNext(draw: nat) returns (exposed: int, listened: int, ok: bool, ghost g: nat)
      requires Valid() && draw < totalLength
      ensures ok && g < |groups| && Owns(Lengths(groups), g, draw)
      ensures exposed - groups[g].exposedStart == listened - groups[g].listenedStart == draw - Prefix(Lengths(groups), g)
    {
      exposed, listened, ok, g := 0, 0, false, 0;
      var idxPort: nat := draw;
      ghost var lengths := Lengths(groups);
      var i := 0;
      while i < |groups|
        invariant i <= |groups| && draw == idxPort + Prefix(lengths, i)
      {
        assert lengths[i] == groups[i].length;
        if idxPort >= groups[i].length {
          idxPort := idxPort - groups[i].length;
        } else {
          return groups[i].exposedStart + idxPort, groups[i].listenedStart + idxPort, true, i;
        }
        i := i + 1;
      }
      // not reached: the draw is below the total length
      assert false;
    }
  }

  /** newPortMapper. One bad piece ends the feature. */
  method NewPortMapper(text: string) returns (r: PasvPortGetter?)
    ensures var pieces := Pieces(text);
            && (r == null <==> text == "" || exists i | 0 <= i < |pieces| :: GroupOf(pieces[i]).None?)
            && (r != null ==>
                  && fresh(r) && r.Valid() && r.totalLength > 0 && |r.groups| == |pieces|
                  && forall i | 0 <= i < |pieces| :: Some(r.groups[i]) == GroupOf(pieces[i]))
  {
    hide GroupOf, Pieces;
    if text == "" {
      return null;
    }
    var mappers := Pieces(text);
    r := new PasvPortGetter();
    var i := 0;
    while i < |mappers|
      invariant i <= |mappers| && fresh(r) && |r.groups| == i && r.Valid()
      invariant forall k | 0 <= k < i :: Some(r.groups[k]) == GroupOf(mappers[k])
      invariant i > 0 ==> r.totalLength > 0
    {
      var g := GroupOf(mappers[i]);
      if g.None? {
        return null;
      }
      PrefixOfPrefix(Lengths(r.groups), Lengths(r.groups + [g.value]), i);
      r.groups := r.groups + [g.value];
      r.totalLength := r.totalLength + g.value.length;
      i := i + 1;
    }
  }

  lemma {:induction false} PrefixOfPrefix(a: seq<nat>, b: seq<nat>, n: nat)
    requires n <= |a| && n <= |b| && forall i | 0 <= i < n :: a[i] == b[i]
    ensures Prefix(a, n) == Prefix(b, n)
  {
    if n > 0 {
      PrefixOfPrefix(a, b, n - 1);
    }
  }

  /** Draw `d` leads to port number `offset` of group `g`. */
  predicate Serves(groups: seq<Group>, d: nat, g: nat, offset: nat) {
    g < |groups| && Owns(Lengths(groups), g, d) && offset == d - Prefix(Lengths(groups), g)
  }

  /** Every draw leads to exactly one port of one group. */
  lemma EveryDrawServed(groups: seq<Group>, d: nat) returns (g: nat, offset: nat)
    requires d < Prefix(Lengths(groups), |groups|)
    ensures Serves(groups, d, g, offset) && offset < groups[g].length
    ensures forall h: nat, k: nat | Serves(groups, d, h, k) :: h == g && k == offset
  {
    var lengths := Lengths(groups);
    g := Crossing(lengths, |groups|, d);
    offset := d - Prefix(lengths, g);
    forall h: nat, k: nat | Serves(groups, d, h, k) ensures h == g && k == offset {
      OwnerUnique(lengths, g, h, d);
    }
  }

  /** Every port of every group is reached by exactly one draw. */
  lemma EveryPortReached(groups: seq<Group>, g: nat, offset: nat) returns (d: nat)
    requires g < |groups| && offset < groups[g].length
    ensures d < Prefix(Lengths(groups), |groups|) && Serves(groups, d, g, offset)
    ensures forall e: nat | Serves(groups, e, g, offset) :: e == d
  {
    PrefixMonotone(Lengths(groups), g + 1, |groups|);
    d := Prefix(Lengths(groups), g) + offset;
  }
}
