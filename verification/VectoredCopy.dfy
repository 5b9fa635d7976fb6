/**
 Vectored copies between device slots and one packed host block. Ghost slots (a null
 address or no bytes) are skipped, but still take their place in the host block.
 */
module VectoredCopy {
  import opened Wrappers

  type Byte = bv8

  datatype Copy = Copy(from: nat, to: nat, size: nat)

  ghost predicate Fits(copies: seq<Copy>, sources: nat, targets: nat) {
    forall i :: 0 <= i < |copies| ==> copies[i].from + copies[i].size <= sources && copies[i].to + copies[i].size <= targets
  }

  // The target after one copy.
  function Copied(dst: seq<Byte>, src: seq<Byte>, c: Copy): (r: seq<Byte>)
    requires c.from + c.size <= |src| && c.to + c.size <= |dst|
    ensures |r| == |dst|
    decreases c.size
  {
    if c.size == 0 then dst
    else Copied(dst, src, c.(size := c.size - 1))[c.to + c.size - 1 := src[c.from + c.size - 1]]
  }

  lemma {:induction false} CopiedAt(dst: seq<Byte>, src: seq<Byte>, c: Copy, a: nat)
    requires c.from + c.size <= |src| && c.to + c.size <= |dst| && a < |dst|
    ensures Copied(dst, src, c)[a] == if c.to <= a < c.to + c.size then src[c.from + (a - c.to)] else dst[a]
    decreases c.size
  {
    if c.size > 0 {
      CopiedAt(dst, src, c.(size := c.size - 1), a);
    }
  }

  // The target after a list of copies, made in order.
  function Apply(dst: seq<Byte>, src: seq<Byte>, copies: seq<Copy>): (r: seq<Byte>)
    requires Fits(copies, |src|, |dst|)
    ensures |r| == |dst|
  {
    if copies == [] then dst
    else Copied(Apply(dst, src, copies[..|copies| - 1]), src, copies[|copies| - 1])
  }

  ghost predicate Apart(a: nat, n: nat, b: nat, m: nat) {
    a + n <= b || b + m <= a || n == 0 || m == 0
  }

  lemma ApartWithin(a: nat, n: nat, b: nat, m: nat, c: nat, k: nat, d: nat, l: nat)
    requires Apart(a, n, b, m) && a <= c && c + k <= a + n && b <= d && d + l <= b + m
    ensures Apart(c, k, d, l)
  {
  }

  // No two copies write the same byte.
  ghost predicate TargetsApart(copies: seq<Copy>) {
    forall i, j :: 0 <= i < j < |copies| ==> Apart(copies[i].to, copies[i].size, copies[j].to, copies[j].size)
  }

  ghost predicate Written(copies: seq<Copy>, a: nat) {
    exists i :: 0 <= i < |copies| && copies[i].to <= a < copies[i].to + copies[i].size
  }

  lemma {:induction false} Untouched(dst: seq<Byte>, src: seq<Byte>, copies: seq<Copy>, a: nat)
    requires Fits(copies, |src|, |dst|) && a < |dst| && !Written(copies, a)
    ensures Apply(dst, src, copies)[a] == dst[a]
  {
    if copies != [] {
      var early, last := copies[..|copies| - 1], copies[|copies| - 1];
      assert forall i :: 0 <= i < |early| ==> early[i] == copies[i];
      Untouched(dst, src, early, a);
      CopiedAt(Apply(dst, src, early), src, last, a);
      assert copies[|copies| - 1] == last;
    }
  }

  lemma {:induction false} Arrives(dst: seq<Byte>, src: seq<Byte>, copies: seq<Copy>, i: nat, k: nat)
    requires Fits(copies, |src|, |dst|) && TargetsApart(copies) && i < |copies| && k < copies[i].size
    ensures Apply(dst, src, copies)[copies[i].to + k] == src[copies[i].from + k]
  {
    var early, last := copies[..|copies| - 1], |copies| - 1;
    assert forall j :: 0 <= j < |early| ==> early[j] == copies[j];
    if i < last {
      Arrives(dst, src, early, i, k);
      assert copies[i].to + k < |dst|;
      CopiedAt(Apply(dst, src, early), src, copies[last], copies[i].to + k);
      assert Apart(copies[i].to, copies[i].size, copies[last].to, copies[last].size);
    } else {
      CopiedAt(Apply(dst, src, early), src, copies[last], copies[i].to + k);
    }
  }

  // Copies one way and the copies that bring the same bytes back.
  ghost predicate Mirrored(there: seq<Copy>, back: seq<Copy>) {
    |there| == |back| && forall i :: 0 <= i < |there| ==> there[i].to == back[i].from && there[i].size == back[i].size
  }

  // What was gathered arrives wherever it is scattered, and nothing else changes.
  lemma RoundTrip(dev: seq<Byte>, host: seq<Byte>, dst: seq<Byte>, there: seq<Copy>, back: seq<Copy>)
    requires Fits(there, |dev|, |host|) && Fits(back, |host|, |dst|)
    requires Mirrored(there, back) && TargetsApart(there) && TargetsApart(back)
    ensures var r := Apply(dst, Apply(host, dev, there), back);
            && (forall i :: 0 <= i < |back| ==> Brought(dev, there[i], r, back[i]))
            && (forall a: nat :: a < |dst| && !Written(back, a) ==> r[a] == dst[a])
  {
    forall i | 0 <= i < |back| ensures Brought(dev, there[i], Apply(dst, Apply(host, dev, there), back), back[i]) {
      BroughtBack(dev, host, dst, there, back, i);
    }
    forall a: nat | a < |dst| && !Written(back, a) ensures Apply(dst, Apply(host, dev, there), back)[a] == dst[a] {
      Untouched(dst, Apply(host, dev, there), back, a);
    }
  }

  lemma BroughtBack(dev: seq<Byte>, host: seq<Byte>, dst: seq<Byte>, there: seq<Copy>, back: seq<Copy>, i: nat)
    requires Fits(there, |dev|, |host|) && Fits(back, |host|, |dst|)
    requires Mirrored(there, back) && TargetsApart(there) && TargetsApart(back) && i < |back|
    ensures Brought(dev, there[i], Apply(dst, Apply(host, dev, there), back), back[i])
  {
    BlockArrives(dst, Apply(host, dev, there), back, i);
    BlockArrives(host, dev, there, i);
  }

  lemma BlockArrives(dst: seq<Byte>, src: seq<Byte>, copies: seq<Copy>, i: nat)
    requires Fits(copies, |src|, |dst|) && TargetsApart(copies) && i < |copies|
    ensures Apply(dst, src, copies)[copies[i].to..copies[i].to + copies[i].size] == src[copies[i].from..copies[i].from + copies[i].size]
  {
    var r, c := Apply(dst, src, copies), copies[i];
    forall k | 0 <= k < c.size ensures At(r, c.to, k) == At(src, c.from, k) {
      Arrives(dst, src, copies, i, k);
    }
    SameSlices(r, c.to, src, c.from, c.size);
  }

  function At(s: seq<Byte>, from: nat, k: nat): Byte
    requires from + k < |s|
  {
    s[from + k]
  }

  lemma SameSlices(a: seq<Byte>, i: nat, b: seq<Byte>, j: nat, size: nat)
    requires i + size <= |a| && j + size <= |b|
    requires forall k :: 0 <= k < size ==> At(a, i, k) == At(b, j, k)
    ensures a[i..i + size] == b[j..j + size]
  {
    var x, y := a[i..i + size], b[j..j + size];
    forall k | 0 <= k < size ensures x[k] == y[k] {
      assert At(a, i, k) == At(b, j, k);
    }
  }

  // What one copy read from `dev`, another has written to `dst`.
  ghost predicate Brought(dev: seq<Byte>, there: Copy, dst: seq<Byte>, back: Copy) {
    && there.size == back.size && there.from + there.size <= |dev| && back.to + back.size <= |dst|
    && dst[back.to..back.to + back.size] == dev[there.from..there.from + there.size]
  }

  // ------------------------------------------------------------------ slot vectors

  // The bytes of the first n slots.
  function Total(sizes: seq<nat>, n: nat): nat
    requires n <= |sizes|
  {
    if n == 0 then 0 else Total(sizes, n - 1) + sizes[n - 1]
  }

  predicate Real(addrs: seq<nat>, sizes: seq<nat>, s: nat)
    requires s < |sizes| <= |addrs|
  {
    sizes[s] != 0 && addrs[s] != 0
  }

  function SlotCopy(addrs: seq<nat>, sizes: seq<nat>, host: nat, toHost: bool, s: nat): Copy
    requires s < |sizes| <= |addrs|
  {
    var at := host + Total(sizes, s);
    if toHost then Copy(addrs[s], at, sizes[s]) else Copy(at, addrs[s], sizes[s])
  }

  // The copies of the first n slots of one device vector.
  function SlotCopies(addrs: seq<nat>, sizes: seq<nat>, host: nat, toHost: bool, n: nat): seq<Copy>
    requires n <= |sizes| <= |addrs|
  {
    if n == 0 then []
    else
      var before := SlotCopies(addrs, sizes, host, toHost, n - 1);
      if Real(addrs, sizes, n - 1) then before + [SlotCopy(addrs, sizes, host, toHost, n - 1)] else before
  }

  predicate Wide(devices: seq<seq<nat>>, sizes: seq<nat>) {
    forall i :: 0 <= i < |devices| ==> |sizes| <= |devices[i]|
  }

  // The copies of the first n device vectors, each with a host block of its own.
  function VectorCopies(devices: seq<seq<nat>>, hosts: seq<nat>, sizes: seq<nat>, toHost: bool, n: nat): seq<Copy>
    requires n <= |devices| == |hosts| && Wide(devices, sizes)
  {
    if n == 0 then []
    else VectorCopies(devices, hosts, sizes, toHost, n - 1) + SlotCopies(devices[n - 1], sizes, hosts[n - 1], toHost, |sizes|)
  }

  // The device slots and the host blocks lie inside their memories.
  ghost predicate SlotsFit(addrs: seq<nat>, sizes: seq<nat>, host: nat, device: nat, hostBytes: nat) {
    && |sizes| <= |addrs|
    && (forall s :: 0 <= s < |sizes| && Real(addrs, sizes, s) ==> addrs[s] + sizes[s] <= device)
    && host + Total(sizes, |sizes|) <= hostBytes
  }

  lemma {:induction false} TotalMonotone(sizes: seq<nat>, m: nat, n: nat)
    requires m <= n <= |sizes|
    ensures Total(sizes, m) <= Total(sizes, n)
  {
    if m < n {
      TotalMonotone(sizes, m, n - 1);
    }
  }

  lemma {:induction false} SlotCopiesFit(addrs: seq<nat>, sizes: seq<nat>, host: nat, toHost: bool, n: nat, device: nat, hostBytes: nat)
    requires n <= |sizes| && SlotsFit(addrs, sizes, host, device, hostBytes)
    ensures Fits(SlotCopies(addrs, sizes, host, toHost, n), if toHost then device else hostBytes, if toHost then hostBytes else device)
  {
    if n > 0 {
      SlotCopiesFit(addrs, sizes, host, toHost, n - 1, device, hostBytes);
      TotalMonotone(sizes, n, |sizes|);
    }
  }

  lemma {:induction false} VectorCopiesFit(devices: seq<seq<nat>>, hosts: seq<nat>, sizes: seq<nat>, toHost: bool, n: nat, device: nat, hostBytes: nat)
    requires n <= |devices| == |hosts|
    requires forall i :: 0 <= i < |devices| ==> SlotsFit(devices[i], sizes, hosts[i], device, hostBytes)
    ensures Wide(devices, sizes)
    ensures Fits(VectorCopies(devices, hosts, sizes, toHost, n), if toHost then device else hostBytes, if toHost then hostBytes else device)
  {
    if n > 0 {
      VectorCopiesFit(devices, hosts, sizes, toHost, n - 1, device, hostBytes);
      SlotCopiesFit(devices[n - 1], sizes, hosts[n - 1], toHost, |sizes|, device, hostBytes);
    }
  }

  lemma {:induction false} ApplyAppend(dst: seq<Byte>, src: seq<Byte>, a: seq<Copy>, b: seq<Copy>)
    requires Fits(a, |src|, |dst|) && Fits(b, |src|, |dst|)
    ensures Fits(a + b, |src|, |dst|) && Apply(dst, src, a + b) == Apply(Apply(dst, src, a), src, b)
    decreases |b|
  {
    if b == [] {
      assert a + b == a;
    } else {
      ApplyAppend(dst, src, a, b[..|b| - 1]);
      assert (a + b)[..|a + b| - 1] == a + b[..|b| - 1];
    }
  }

  // --------------------------------------------------------------------- methods

  // One copy; the device runtime may refuse it.
  method CopyAsync(src: array<Byte>, dst: array<Byte>, c: Copy, fails: bool) returns (ok: bool)
    requires src != dst && c.from + c.size <= src.Length && c.to + c.size <= dst.Length
    modifies dst
    ensures ok == !fails
    ensures dst[..] == if ok then Copied(old(dst[..]), src[..], c) else old(dst[..])
  {
    if fails {
      return false;
    }
    ghost var before := dst[..];
    forall k | 0 <= k < c.size {
      dst[c.to + k] := src[c.from + k];
    }
    ok := true;
    forall a | 0 <= a < dst.Length ensures dst[..][a] == Copied(before, src[..], c)[a] {
      CopiedAt(before, src[..], c, a);
    }
  }

  // The target after the copies of one more slot.
  lemma NextSlot(dst: seq<Byte>, src: seq<Byte>, addrs: seq<nat>, sizes: seq<nat>, host: nat, toHost: bool, s: nat)
    requires s < |sizes| && SlotsFit(addrs, sizes, host, if toHost then |src| else |dst|, if toHost then |dst| else |src|)
    ensures Fits(SlotCopies(addrs, sizes, host, toHost, s), |src|, |dst|) && Fits(SlotCopies(addrs, sizes, host, toHost, s + 1), |src|, |dst|)
    ensures var c := SlotCopy(addrs, sizes, host, toHost, s);
            Apply(dst, src, SlotCopies(addrs, sizes, host, toHost, s + 1)) ==
            if Real(addrs, sizes, s) && c.from + c.size <= |src| && c.to + c.size <= |dst|
            then Copied(Apply(dst, src, SlotCopies(addrs, sizes, host, toHost, s)), src, c)
            else Apply(dst, src, SlotCopies(addrs, sizes, host, toHost, s))
    ensures var c := SlotCopy(addrs, sizes, host, toHost, s);
            Real(addrs, sizes, s) ==> c.from + c.size <= |src| && c.to + c.size <= |dst|
  {
    var device, hostBytes := if toHost then |src| else |dst|, if toHost then |dst| else |src|;
    SlotCopiesFit(addrs, sizes, host, toHost, s, device, hostBytes);
    SlotCopiesFit(addrs, sizes, host, toHost, s + 1, device, hostBytes);
    var before, after := SlotCopies(addrs, sizes, host, toHost, s), SlotCopies(addrs, sizes, host, toHost, s + 1);
    if Real(addrs, sizes, s) {
      assert after[|before|] == SlotCopy(addrs, sizes, host, toHost, s) && after[..|before|] == before;
    }
  }

  // The target after the first slots of a vector; `start` is the target before them.
  ghost predicate SlotsCopied(start: seq<Byte>, src: seq<Byte>, now: seq<Byte>, addrs: seq<nat>, sizes: seq<nat>, host: nat,
                              toHost: bool, s: nat)
    requires s <= |sizes| <= |addrs|
  {
    var copies := SlotCopies(addrs, sizes, host, toHost, s);
    |start| == |now| && Fits(copies, |src|, |now|) && now == Apply(start, src, copies)
  }

  // Copies one slot, unless it is a ghost. `start` is the target before the first slot.
  method CopySlot(src: array<Byte>, dst: array<Byte>, addrs: seq<nat>, sizes: seq<nat>, host: nat, toHost: bool, s: nat, offset: nat,
                  refused: bool, ghost start: seq<Byte>)
      returns (ok: bool)
    requires src != dst && s < |sizes| && offset == Total(sizes, s) && |start| == dst.Length
    requires SlotsFit(addrs, sizes, host, if toHost then src.Length else dst.Length, if toHost then dst.Length else src.Length)
    requires SlotsCopied(start, src[..], dst[..], addrs, sizes, host, toHost, s)
    modifies dst
    ensures ok <==> !(Real(addrs, sizes, s) && refused)
    ensures SlotsCopied(start, src[..], dst[..], addrs, sizes, host, toHost, if ok then s + 1 else s)
  {
    NextSlot(start, src[..], addrs, sizes, host, toHost, s);
    if sizes[s] == 0 || addrs[s] == 0 {
      return true;
    }
    var at := host + offset;
    var c := if toHost then Copy(addrs[s], at, sizes[s]) else Copy(at, addrs[s], sizes[s]);
    assert c == SlotCopy(addrs, sizes, host, toHost, s);
    ok := CopyAsync(src, dst, c, refused);
  }

  // Copies one vector of device slots from or to a packed host block. `faults` are the
  // slots whose copy is refused; the first real one of them stops the vector.
  method CopySlots(src: array<Byte>, dst: array<Byte>, addrs: seq<nat>, sizes: seq<nat>, host: nat, toHost: bool, faults: set<nat>)
      returns (done: nat)
    requires src != dst
    requires SlotsFit(addrs, sizes, host, if toHost then src.Length else dst.Length, if toHost then dst.Length else src.Length)
    modifies dst
    ensures done <= |sizes|
    ensures forall s :: 0 <= s < done && Real(addrs, sizes, s) ==> s !in faults
    ensures done < |sizes| ==> Real(addrs, sizes, done) && done in faults
    ensures Fits(SlotCopies(addrs, sizes, host, toHost, done), src.Length, dst.Length)
    ensures dst[..] == Apply(old(dst[..]), src[..], SlotCopies(addrs, sizes, host, toHost, done))
  {
    ghost var start := dst[..];
    var offset := 0;
    done := 0;
    while done < |sizes|
      invariant done <= |sizes| && offset == Total(sizes, done)
      invariant forall s :: 0 <= s < done && Real(addrs, sizes, s) ==> s !in faults
      invariant SlotsCopied(start, src[..], dst[..], addrs, sizes, host, toHost, done)
    {
      var ok := CopySlot(src, dst, addrs, sizes, host, toHost, done, offset, done in faults, start);
      if !ok {
        return;
      }
      offset := offset + sizes[done];
      done := done + 1;
    }
  }

  // The copies of some whole vectors, and of the first slots of the next one.
  function CopiesUntil(devices: seq<seq<nat>>, hosts: seq<nat>, sizes: seq<nat>, toHost: bool, vectors: nat, slots: nat): seq<Copy>
    requires vectors <= |devices| == |hosts| && Wide(devices, sizes) && slots <= |sizes|
  {
    VectorCopies(devices, hosts, sizes, toHost, vectors) +
    if vectors < |devices| then SlotCopies(devices[vectors], sizes, hosts[vectors], toHost, slots) else []
  }

  // The slots of a vector whose copy is refused.
  function Refused(faults: map<nat, set<nat>>, vector: nat): set<nat> {
    if vector in faults then faults[vector] else {}
  }

  // No copy was refused among some whole vectors and the first slots of the next.
  ghost predicate NoneRefused(devices: seq<seq<nat>>, sizes: seq<nat>, faults: map<nat, set<nat>>, vectors: nat, slots: nat)
    requires Wide(devices, sizes)
  {
    forall i, s :: 0 <= i < |devices| && 0 <= s < |sizes| && (i < vectors || (i == vectors && s < slots)) && Real(devices[i], sizes, s) ==>
      s !in Refused(faults, i)
  }

  // Copies several device vectors, each from or to a host block of its own. A refused copy
  // stops everything, with exactly the copies before it made.
  method CopyVectors(src: array<Byte>, dst: array<Byte>, devices: seq<seq<nat>>, hosts: seq<nat>, sizes: seq<nat>, toHost: bool,
                     faults: map<nat, set<nat>>)
      returns (r: Result<()>, vectors: nat, slots: nat)
    requires src != dst
    requires |devices| == |hosts| ==> VectorsFit(devices, hosts, sizes, toHost, src.Length, dst.Length)
    modifies dst
    ensures |devices| != |hosts| ==> r.Err? && dst[..] == old(dst[..])
    ensures |devices| == |hosts| ==>
              && vectors <= |devices| && slots <= |sizes| && (r.Ok? <==> vectors == |devices|)
              && (r.Err? ==> slots < |sizes| && Real(devices[vectors], sizes, slots) && slots in Refused(faults, vectors))
              && NoneRefused(devices, sizes, faults, vectors, slots)
              && Fits(CopiesUntil(devices, hosts, sizes, toHost, vectors, slots), src.Length, dst.Length)
              && dst[..] == Apply(old(dst[..]), src[..], CopiesUntil(devices, hosts, sizes, toHost, vectors, slots))
  {
    vectors, slots := 0, 0;
    if |devices| != |hosts| {
      r := Err("invalid task copy inputs");
      return;
    }
    vectors, slots := CopyEach(src, dst, devices, hosts, sizes, toHost, faults);
    r := if vectors < |devices| then Err("copy failed") else Ok(());
  }

  ghost predicate VectorsFit(devices: seq<seq<nat>>, hosts: seq<nat>, sizes: seq<nat>, toHost: bool, sources: nat, targets: nat)
    requires |devices| == |hosts|
    ensures VectorsFit(devices, hosts, sizes, toHost, sources, targets) ==> Wide(devices, sizes)
  {
    forall i :: 0 <= i < |devices| ==>
      SlotsFit(devices[i], sizes, hosts[i], if toHost then sources else targets, if toHost then targets else sources)
  }

  // The target after some whole vectors.
  ghost predicate VectorsCopied(start: seq<Byte>, src: seq<Byte>, now: seq<Byte>, devices: seq<seq<nat>>, hosts: seq<nat>,
                                sizes: seq<nat>, toHost: bool, v: nat)
    requires v <= |devices| == |hosts| && Wide(devices, sizes)
  {
    var copies := VectorCopies(devices, hosts, sizes, toHost, v);
    |start| == |now| && Fits(copies, |src|, |now|) && now == Apply(start, src, copies)
  }

  method CopyEach(src: array<Byte>, dst: array<Byte>, devices: seq<seq<nat>>, hosts: seq<nat>, sizes: seq<nat>, toHost: bool,
                  faults: map<nat, set<nat>>)
      returns (vectors: nat, slots: nat)
    requires src != dst && |devices| == |hosts| && VectorsFit(devices, hosts, sizes, toHost, src.Length, dst.Length)
    modifies dst
    ensures vectors <= |devices| && slots <= |sizes|
    ensures vectors < |devices| ==> slots < |sizes| && Real(devices[vectors], sizes, slots) && slots in Refused(faults, vectors)
    ensures NoneRefused(devices, sizes, faults, vectors, slots)
    ensures Fits(CopiesUntil(devices, hosts, sizes, toHost, vectors, slots), src.Length, dst.Length)
    ensures dst[..] == Apply(old(dst[..]), src[..], CopiesUntil(devices, hosts, sizes, toHost, vectors, slots))
  {
    vectors, slots := 0, 0;
    ghost var start := dst[..];
    while vectors < |devices|
      invariant vectors <= |devices| && slots == 0 && NoneRefused(devices, sizes, faults, vectors, 0)
      invariant VectorsCopied(start, src[..], dst[..], devices, hosts, sizes, toHost, vectors)
    {
      slots := CopyVector(src, dst, devices, hosts, sizes, toHost, vectors, Refused(faults, vectors), start);
      if slots < |sizes| {
        return;
      }
      vectors, slots := vectors + 1, 0;
    }
    assert CopiesUntil(devices, hosts, sizes, toHost, vectors, slots) == VectorCopies(devices, hosts, sizes, toHost, vectors);
  }

  // Copies one of several vectors. `start` is the target before the first of them.
  method CopyVector(src: array<Byte>, dst: array<Byte>, devices: seq<seq<nat>>, hosts: seq<nat>, sizes: seq<nat>, toHost: bool, v: nat,
                    refused: set<nat>, ghost start: seq<Byte>)
      returns (slots: nat)
    requires src != dst && v < |devices| == |hosts| && Wide(devices, sizes) && |start| == dst.Length
    requires SlotsFit(devices[v], sizes, hosts[v], if toHost then src.Length else dst.Length, if toHost then dst.Length else src.Length)
    requires VectorsCopied(start, src[..], dst[..], devices, hosts, sizes, toHost, v)
    modifies dst
    ensures slots <= |sizes| && forall s :: 0 <= s < slots && Real(devices[v], sizes, s) ==> s !in refused
    ensures slots < |sizes| ==> Real(devices[v], sizes, slots) && slots in refused
    ensures Fits(CopiesUntil(devices, hosts, sizes, toHost, v, slots), src.Length, dst.Length)
    ensures dst[..] == Apply(start, src[..], CopiesUntil(devices, hosts, sizes, toHost, v, slots))
    ensures slots == |sizes| ==> VectorsCopied(start, src[..], dst[..], devices, hosts, sizes, toHost, v + 1)
  {
    slots := CopySlots(src, dst, devices[v], sizes, hosts[v], toHost, refused);
    VectorStopped(start, src[..], devices, hosts, sizes, toHost, v, slots);
  }

  // The target after some vectors and the first slots of the next.
  lemma VectorStopped(dst: seq<Byte>, src: seq<Byte>, devices: seq<seq<nat>>, hosts: seq<nat>, sizes: seq<nat>, toHost: bool, v: nat, s: nat)
    requires v < |devices| == |hosts| && Wide(devices, sizes) && s <= |sizes|
    requires Fits(VectorCopies(devices, hosts, sizes, toHost, v), |src|, |dst|)
    requires Fits(SlotCopies(devices[v], sizes, hosts[v], toHost, s), |src|, |dst|)
    ensures Fits(CopiesUntil(devices, hosts, sizes, toHost, v, s), |src|, |dst|)
    ensures Apply(dst, src, CopiesUntil(devices, hosts, sizes, toHost, v, s)) ==
            Apply(Apply(dst, src, VectorCopies(devices, hosts, sizes, toHost, v)), src, SlotCopies(devices[v], sizes, hosts[v], toHost, s))
    ensures s == |sizes| ==> VectorCopies(devices, hosts, sizes, toHost, v + 1) == CopiesUntil(devices, hosts, sizes, toHost, v, s)
  {
    ApplyAppend(dst, src, VectorCopies(devices, hosts, sizes, toHost, v), SlotCopies(devices[v], sizes, hosts[v], toHost, s));
  }

  // ----------------------------------------------------------- dump and load again

  // The same slots are real in two vectors of addresses.
  ghost predicate SameShape(a: seq<nat>, b: seq<nat>, sizes: seq<nat>) {
    |sizes| <= |a| && |sizes| <= |b| && forall s :: 0 <= s < |sizes| ==> (Real(a, sizes, s) <==> Real(b, sizes, s))
  }

  lemma {:induction false} SlotsMirror(a: seq<nat>, b: seq<nat>, sizes: seq<nat>, host: nat, n: nat)
    requires n <= |sizes| && SameShape(a, b, sizes)
    ensures Mirrored(SlotCopies(a, sizes, host, true, n), SlotCopies(b, sizes, host, false, n))
  {
    if n > 0 {
      SlotsMirror(a, b, sizes, host, n - 1);
    }
  }

  lemma {:induction false} VectorsMirror(a: seq<seq<nat>>, b: seq<seq<nat>>, hosts: seq<nat>, sizes: seq<nat>, n: nat)
    requires n <= |a| == |b| == |hosts| && forall i :: 0 <= i < |a| ==> SameShape(a[i], b[i], sizes)
    ensures Wide(a, sizes) && Wide(b, sizes)
    ensures Mirrored(VectorCopies(a, hosts, sizes, true, n), VectorCopies(b, hosts, sizes, false, n))
  {
    if n > 0 {
      VectorsMirror(a, b, hosts, sizes, n - 1);
      SlotsMirror(a[n - 1], b[n - 1], sizes, hosts[n - 1], |sizes|);
    }
  }

  // Every copy of a vector list belongs to one of its slots.
  ghost predicate FromSlot(c: Copy, addrs: seq<nat>, sizes: seq<nat>, host: nat, toHost: bool, s: nat) {
    s < |sizes| <= |addrs| && Real(addrs, sizes, s) && c == SlotCopy(addrs, sizes, host, toHost, s)
  }

  lemma {:induction false} SlotOfCopy(addrs: seq<nat>, sizes: seq<nat>, host: nat, toHost: bool, n: nat, c: Copy)
    requires n <= |sizes| <= |addrs|
    ensures c in SlotCopies(addrs, sizes, host, toHost, n) <==> exists s: nat :: s < n && FromSlot(c, addrs, sizes, host, toHost, s)
  {
    if n > 0 {
      SlotOfCopy(addrs, sizes, host, toHost, n - 1, c);
      assert FromSlot(c, addrs, sizes, host, toHost, n - 1) <==>
             Real(addrs, sizes, n - 1) && c == SlotCopy(addrs, sizes, host, toHost, n - 1);
    }
  }

  lemma {:induction false} VectorOfCopy(devices: seq<seq<nat>>, hosts: seq<nat>, sizes: seq<nat>, toHost: bool, n: nat, c: Copy)
    requires n <= |devices| == |hosts| && Wide(devices, sizes)
    ensures c in VectorCopies(devices, hosts, sizes, toHost, n) <==>
            exists i, s: nat :: 0 <= i < n && FromSlot(c, devices[i], sizes, hosts[i], toHost, s)
  {
    if n > 0 {
      VectorOfCopy(devices, hosts, sizes, toHost, n - 1, c);
      SlotOfCopy(devices[n - 1], sizes, hosts[n - 1], toHost, |sizes|, c);
    }
  }

  // No two real slots of the vectors share a device byte.
  ghost predicate DeviceApart(devices: seq<seq<nat>>, sizes: seq<nat>)
    requires Wide(devices, sizes)
  {
    forall i, j, s, t :: 0 <= i < |devices| && 0 <= j < |devices| && 0 <= s < |sizes| && 0 <= t < |sizes| && (i != j || s != t) &&
                         Real(devices[i], sizes, s) && Real(devices[j], sizes, t) ==>
      Apart(devices[i][s], sizes[s], devices[j][t], sizes[t])
  }

  // No two host blocks overlap.
  ghost predicate HostsApart(hosts: seq<nat>, bytes: nat) {
    forall i, j :: 0 <= i < j < |hosts| ==> Apart(hosts[i], bytes, hosts[j], bytes)
  }

  lemma {:induction false} SlotTargetsApart(addrs: seq<nat>, sizes: seq<nat>, host: nat, toHost: bool, n: nat)
    requires n <= |sizes| <= |addrs|
    requires toHost || DeviceApart([addrs], sizes)
    ensures TargetsApart(SlotCopies(addrs, sizes, host, toHost, n))
  {
    if n > 0 {
      SlotTargetsApart(addrs, sizes, host, toHost, n - 1);
      var before := SlotCopies(addrs, sizes, host, toHost, n - 1);
      var last := SlotCopy(addrs, sizes, host, toHost, n - 1);
      if Real(addrs, sizes, n - 1) {
        forall k | 0 <= k < |before| ensures Apart(before[k].to, before[k].size, last.to, last.size) {
          SlotOfCopy(addrs, sizes, host, toHost, n - 1, before[k]);
          var s: nat :| s < n - 1 && FromSlot(before[k], addrs, sizes, host, toHost, s);
          TotalMonotone(sizes, s + 1, n - 1);
          assert !toHost ==> [addrs][0] == addrs;
        }
      }
    }
  }

  lemma {:induction false} VectorTargetsApart(devices: seq<seq<nat>>, hosts: seq<nat>, sizes: seq<nat>, toHost: bool, n: nat)
    requires n <= |devices| == |hosts| && Wide(devices, sizes)
    requires if toHost then HostsApart(hosts, Total(sizes, |sizes|)) else DeviceApart(devices, sizes)
    ensures TargetsApart(VectorCopies(devices, hosts, sizes, toHost, n))
  {
    if n > 0 {
      VectorTargetsApart(devices, hosts, sizes, toHost, n - 1);
      var before := VectorCopies(devices, hosts, sizes, toHost, n - 1);
      var own := SlotCopies(devices[n - 1], sizes, hosts[n - 1], toHost, |sizes|);
      if !toHost {
        OneDevice(devices, sizes, n - 1);
      }
      SlotTargetsApart(devices[n - 1], sizes, hosts[n - 1], toHost, |sizes|);
      forall k, l | 0 <= k < |before| && 0 <= l < |own| ensures Apart(before[k].to, before[k].size, own[l].to, own[l].size) {
        VectorOfCopy(devices, hosts, sizes, toHost, n - 1, before[k]);
        var i, s: nat :| 0 <= i < n - 1 && FromSlot(before[k], devices[i], sizes, hosts[i], toHost, s);
        SlotOfCopy(devices[n - 1], sizes, hosts[n - 1], toHost, |sizes|, own[l]);
        var t: nat :| t < |sizes| && FromSlot(own[l], devices[n - 1], sizes, hosts[n - 1], toHost, t);
        TotalMonotone(sizes, s + 1, |sizes|);
        TotalMonotone(sizes, t + 1, |sizes|);
      }
    }
  }

  lemma OneDevice(devices: seq<seq<nat>>, sizes: seq<nat>, i: nat)
    requires i < |devices| && Wide(devices, sizes)
    requires DeviceApart(devices, sizes)
    ensures DeviceApart([devices[i]], sizes)
  {
    forall s, t | 0 <= s < |sizes| && 0 <= t < |sizes| && s != t && Real(devices[i], sizes, s) && Real(devices[i], sizes, t)
      ensures Apart(devices[i][s], sizes[s], devices[i][t], sizes[t])
    {
    }
  }

  // One copy and its mirror serve the same slot of the same block.
  ghost predicate SameSlot(there: Copy, back: Copy, a: seq<nat>, b: seq<nat>, host: nat, sizes: seq<nat>, s: nat) {
    FromSlot(there, a, sizes, host, true, s) && FromSlot(back, b, sizes, host, false, s)
  }

  lemma {:induction false} SlotsPaired(a: seq<nat>, b: seq<nat>, host: nat, sizes: seq<nat>, n: nat, p: nat)
    requires n <= |sizes| && SameShape(a, b, sizes)
    requires p < |SlotCopies(a, sizes, host, true, n)| == |SlotCopies(b, sizes, host, false, n)|
    ensures exists s: nat :: s < n && SameSlot(SlotCopies(a, sizes, host, true, n)[p], SlotCopies(b, sizes, host, false, n)[p], a, b, host, sizes, s)
  {
    SlotsMirror(a, b, sizes, host, n - 1);
    if p < |SlotCopies(a, sizes, host, true, n - 1)| {
      SlotsPaired(a, b, host, sizes, n - 1, p);
      var s: nat :| s < n - 1 && SameSlot(SlotCopies(a, sizes, host, true, n - 1)[p], SlotCopies(b, sizes, host, false, n - 1)[p], a, b, host, sizes, s);
      assert SameSlot(SlotCopies(a, sizes, host, true, n)[p], SlotCopies(b, sizes, host, false, n)[p], a, b, host, sizes, s);
    } else {
      assert SameSlot(SlotCopies(a, sizes, host, true, n)[p], SlotCopies(b, sizes, host, false, n)[p], a, b, host, sizes, n - 1);
    }
  }

  lemma {:induction false} VectorsPaired(a: seq<seq<nat>>, b: seq<seq<nat>>, hosts: seq<nat>, sizes: seq<nat>, n: nat, p: nat)
    requires n <= |a| == |b| == |hosts| && forall i :: 0 <= i < |a| ==> SameShape(a[i], b[i], sizes)
    requires Wide(a, sizes) && Wide(b, sizes)
    requires p < |VectorCopies(a, hosts, sizes, true, n)| == |VectorCopies(b, hosts, sizes, false, n)|
    ensures exists i, s: nat :: 0 <= i < n &&
              SameSlot(VectorCopies(a, hosts, sizes, true, n)[p], VectorCopies(b, hosts, sizes, false, n)[p], a[i], b[i], hosts[i], sizes, s)
  {
    VectorsMirror(a, b, hosts, sizes, n - 1);
    SlotsMirror(a[n - 1], b[n - 1], sizes, hosts[n - 1], |sizes|);
    var early := |VectorCopies(a, hosts, sizes, true, n - 1)|;
    var there, back := VectorCopies(a, hosts, sizes, true, n)[p], VectorCopies(b, hosts, sizes, false, n)[p];
    if p < early {
      VectorsPaired(a, b, hosts, sizes, n - 1, p);
      var i, s: nat :| 0 <= i < n - 1 &&
        SameSlot(VectorCopies(a, hosts, sizes, true, n - 1)[p], VectorCopies(b, hosts, sizes, false, n - 1)[p], a[i], b[i], hosts[i], sizes, s);
      assert SameSlot(there, back, a[i], b[i], hosts[i], sizes, s);
    } else {
      SlotsPaired(a[n - 1], b[n - 1], hosts[n - 1], sizes, |sizes|, p - early);
      var s: nat :| s < |sizes| &&
        SameSlot(SlotCopies(a[n - 1], sizes, hosts[n - 1], true, |sizes|)[p - early],
                 SlotCopies(b[n - 1], sizes, hosts[n - 1], false, |sizes|)[p - early], a[n - 1], b[n - 1], hosts[n - 1], sizes, s);
      assert SameSlot(there, back, a[n - 1], b[n - 1], hosts[n - 1], sizes, s);
    }
  }

  // A device byte inside a real slot of the vectors.
  ghost predicate InSlots(devices: seq<seq<nat>>, sizes: seq<nat>, x: nat)
    requires Wide(devices, sizes)
  {
    exists i, s :: 0 <= i < |devices| && 0 <= s < |sizes| && Real(devices[i], sizes, s) && devices[i][s] <= x < devices[i][s] + sizes[s]
  }

  // The setting of a dump followed by a load.
  ghost predicate Transferable(a: seq<seq<nat>>, b: seq<seq<nat>>, hosts: seq<nat>, sizes: seq<nat>, dev: nat, hostBytes: nat, dst: nat) {
    && |a| == |b| == |hosts|
    && (forall i :: 0 <= i < |a| ==> SlotsFit(a[i], sizes, hosts[i], dev, hostBytes))
    && (forall i :: 0 <= i < |b| ==> SlotsFit(b[i], sizes, hosts[i], dst, hostBytes))
    && (forall i :: 0 <= i < |a| ==> SameShape(a[i], b[i], sizes))
    && HostsApart(hosts, Total(sizes, |sizes|))
    && Wide(b, sizes) && DeviceApart(b, sizes)
  }

  // The target memory after dumping the vectors `a` to host blocks and loading these
  // into the vectors `b`.
  function DumpedAndLoaded(dev: seq<Byte>, host: seq<Byte>, dst: seq<Byte>, a: seq<seq<nat>>, b: seq<seq<nat>>, hosts: seq<nat>, sizes: seq<nat>): seq<Byte>
    requires Transferable(a, b, hosts, sizes, |dev|, |host|, |dst|)
  {
    VectorCopiesFit(a, hosts, sizes, true, |a|, |dev|, |host|);
    VectorCopiesFit(b, hosts, sizes, false, |b|, |dst|, |host|);
    Apply(dst, Apply(host, dev, VectorCopies(a, hosts, sizes, true, |a|)), VectorCopies(b, hosts, sizes, false, |b|))
  }

  // Every real slot of a target block gets the bytes of the same slot of its source.
  lemma SlotsComeBack(dev: seq<Byte>, host: seq<Byte>, dst: seq<Byte>, a: seq<seq<nat>>, b: seq<seq<nat>>, hosts: seq<nat>, sizes: seq<nat>,
                      i: nat, s: nat)
    requires Transferable(a, b, hosts, sizes, |dev|, |host|, |dst|)
    requires i < |b| && s < |sizes| && Real(b[i], sizes, s)
    ensures var r := DumpedAndLoaded(dev, host, dst, a, b, hosts, sizes);
            && b[i][s] + sizes[s] <= |r| && a[i][s] + sizes[s] <= |dev|
            && r[b[i][s]..b[i][s] + sizes[s]] == dev[a[i][s]..a[i][s] + sizes[s]]
  {
    TransferIsSound(a, b, hosts, sizes, |dev|, |host|, |dst|);
    var p := CopyOfSlot(a, b, hosts, sizes, i, s);
    BroughtBack(dev, host, dst, VectorCopies(a, hosts, sizes, true, |a|), VectorCopies(b, hosts, sizes, false, |b|), p);
  }

  lemma TransferIsSound(a: seq<seq<nat>>, b: seq<seq<nat>>, hosts: seq<nat>, sizes: seq<nat>, dev: nat, hostBytes: nat, dst: nat)
    requires Transferable(a, b, hosts, sizes, dev, hostBytes, dst)
    ensures Wide(a, sizes) && Wide(b, sizes)
    ensures var there, back := VectorCopies(a, hosts, sizes, true, |a|), VectorCopies(b, hosts, sizes, false, |b|);
            && Fits(there, dev, hostBytes) && Fits(back, hostBytes, dst)
            && Mirrored(there, back) && TargetsApart(there) && TargetsApart(back)
  {
    VectorCopiesFit(a, hosts, sizes, true, |a|, dev, hostBytes);
    VectorCopiesFit(b, hosts, sizes, false, |b|, dst, hostBytes);
    VectorsMirror(a, b, hosts, sizes, |a|);
    VectorTargetsApart(a, hosts, sizes, true, |a|);
    VectorTargetsApart(b, hosts, sizes, false, |b|);
  }

  // The position of a slot among the copies of both directions.
  lemma CopyOfSlot(a: seq<seq<nat>>, b: seq<seq<nat>>, hosts: seq<nat>, sizes: seq<nat>, i: nat, s: nat) returns (p: nat)
    requires |a| == |b| == |hosts| && forall k :: 0 <= k < |a| ==> SameShape(a[k], b[k], sizes)
    requires Wide(a, sizes) && Wide(b, sizes) && DeviceApart(b, sizes)
    requires i < |b| && s < |sizes| && Real(b[i], sizes, s)
    ensures p < |VectorCopies(a, hosts, sizes, true, |a|)| == |VectorCopies(b, hosts, sizes, false, |b|)|
    ensures SameSlot(VectorCopies(a, hosts, sizes, true, |a|)[p], VectorCopies(b, hosts, sizes, false, |b|)[p], a[i], b[i], hosts[i], sizes, s)
  {
    var back := VectorCopies(b, hosts, sizes, false, |b|);
    var c := SlotCopy(b[i], sizes, hosts[i], false, s);
    VectorsMirror(a, b, hosts, sizes, |a|);
    assert FromSlot(c, b[i], sizes, hosts[i], false, s);
    VectorOfCopy(b, hosts, sizes, false, |b|, c);
    p :| 0 <= p < |back| && back[p] == c;
    VectorsPaired(a, b, hosts, sizes, |a|, p);
    var j, t: nat :| 0 <= j < |a| &&
      SameSlot(VectorCopies(a, hosts, sizes, true, |a|)[p], back[p], a[j], b[j], hosts[j], sizes, t);
    assert b[j][t] == b[i][s] && sizes[t] == sizes[s] != 0;
    assert j == i && t == s;
  }

  // A dump packs every real slot into its host block, behind the sizes of all earlier slots,
  // ghosts included.
  lemma PackedInHost(dev: seq<Byte>, host: seq<Byte>, a: seq<seq<nat>>, hosts: seq<nat>, sizes: seq<nat>, i: nat, s: nat)
    requires |a| == |hosts| && VectorsFit(a, hosts, sizes, true, |dev|, |host|) && HostsApart(hosts, Total(sizes, |sizes|))
    requires i < |a| && s < |sizes| && Real(a[i], sizes, s)
    ensures Fits(VectorCopies(a, hosts, sizes, true, |a|), |dev|, |host|)
    ensures var packed, at := Apply(host, dev, VectorCopies(a, hosts, sizes, true, |a|)), hosts[i] + Total(sizes, s);
            && at + sizes[s] <= |packed| && a[i][s] + sizes[s] <= |dev|
            && packed[at..at + sizes[s]] == dev[a[i][s]..a[i][s] + sizes[s]]
  {
    VectorCopiesFit(a, hosts, sizes, true, |a|, |dev|, |host|);
    VectorTargetsApart(a, hosts, sizes, true, |a|);
    var p := DumpOfSlot(a, hosts, sizes, i, s);
    BlockArrives(host, dev, VectorCopies(a, hosts, sizes, true, |a|), p);
  }

  lemma DumpOfSlot(a: seq<seq<nat>>, hosts: seq<nat>, sizes: seq<nat>, i: nat, s: nat) returns (p: nat)
    requires |a| == |hosts| && Wide(a, sizes) && i < |a| && s < |sizes| && Real(a[i], sizes, s)
    ensures p < |VectorCopies(a, hosts, sizes, true, |a|)|
    ensures VectorCopies(a, hosts, sizes, true, |a|)[p] == Copy(a[i][s], hosts[i] + Total(sizes, s), sizes[s])
  {
    var copies, c := VectorCopies(a, hosts, sizes, true, |a|), SlotCopy(a[i], sizes, hosts[i], true, s);
    assert FromSlot(c, a[i], sizes, hosts[i], true, s);
    VectorOfCopy(a, hosts, sizes, true, |a|, c);
    p :| 0 <= p < |copies| && copies[p] == c;
  }

  // No other byte of the target changes.
  lemma OthersKept(dev: seq<Byte>, host: seq<Byte>, dst: seq<Byte>, a: seq<seq<nat>>, b: seq<seq<nat>>, hosts: seq<nat>, sizes: seq<nat>, x: nat)
    requires Transferable(a, b, hosts, sizes, |dev|, |host|, |dst|)
    requires x < |dst| && !InSlots(b, sizes, x)
    ensures DumpedAndLoaded(dev, host, dst, a, b, hosts, sizes)[x] == dst[x]
  {
    VectorCopiesFit(a, hosts, sizes, true, |a|, |dev|, |host|);
    VectorCopiesFit(b, hosts, sizes, false, |b|, |dst|, |host|);
    var packed, back := Apply(host, dev, VectorCopies(a, hosts, sizes, true, |a|)), VectorCopies(b, hosts, sizes, false, |b|);
    forall p | 0 <= p < |back| ensures !(back[p].to <= x < back[p].to + back[p].size) {
      VectorOfCopy(b, hosts, sizes, false, |b|, back[p]);
      var i, s: nat :| 0 <= i < |b| && FromSlot(back[p], b[i], sizes, hosts[i], false, s);
    }
    Untouched(dst, packed, back, x);
  }
}
