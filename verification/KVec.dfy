/** The kernel vector: initialised slots, growth through a fallible allocator, and who owns each element. */
module KVec {

  import opened Wrappers
  import opened Words

  /** A slot holds an element the vector owns, or bytes it must not read. */
  datatype Slot<T> = Uninit | Init(value: T)

  datatype AllocError = AllocError

  /** `slots` holds exactly these elements, in its first places. */
  ghost predicate Holds<T>(slots: seq<Slot<T>>, contents: seq<T>) {
    && |contents| <= |slots|
    && (forall i :: 0 <= i < |contents| ==> slots[i] == Init(contents[i]))
    && (forall i :: |contents| <= i < |slots| ==> slots[i].Uninit?)
  }

  lemma HoldsRemoved<T>(slots: seq<Slot<T>>, contents: seq<T>, i: nat)
    requires Holds(slots, contents) && i < |contents|
    ensures var s, n := slots[i := Uninit], |contents|;
            Holds(s[..i] + s[i + 1..n] + [Uninit] + s[n..], contents[..i] + contents[i + 1..])
  {
  }

  /** The capacity after growth. */
  function Doubled(cap: nat): nat {
    if cap == 0 then 1 else 2 * cap
  }

  /** `Vec`; `contents` are the elements it owns, `dropped` those it has dropped. `maxCap` is the largest
      capacity that has a layout. */
  class Vec<T> {
    const maxCap: nat
    var slots: array<Slot<T>>
    var len: nat
    ghost var contents: seq<T>
    ghost var dropped: seq<T>

    ghost predicate Valid()
      reads this, slots
    {
      maxCap < U64_SIZE && slots.Length <= maxCap && len == |contents| && Holds(slots[..], contents)
    }

    constructor (maxCap: nat)
      requires maxCap < U64_SIZE
      ensures Valid() && fresh(slots) && this.maxCap == maxCap && slots.Length == 0 && contents == [] && dropped == []
    {
      this.maxCap, slots, len, contents, dropped := maxCap, new Slot<T>[0](_ => Uninit), 0, [], [];
    }

    /** `realloc_to`: the allocator copies the old block, or fails and leaves it alone. */
    method ReallocTo(newCap: nat, granted: bool) returns (r: Result<(), AllocError>)
      requires Valid() && newCap >= slots.Length
      modifies this`slots
      ensures Valid() && (slots == old(slots) || fresh(slots))
      ensures r.Ok? <==> newCap <= maxCap && granted
      ensures r.Ok? ==> slots.Length == newCap
      ensures r.Err? ==> slots == old(slots)
    {
      if newCap > maxCap || !granted {
        return Err(AllocError);
      }
      var was := slots[..];
      slots := new Slot<T>[newCap](i => if 0 <= i < |was| then was[i] else Uninit);
      return Ok(());
    }

    method Reserve(additional: nat, granted: bool) returns (r: Result<(), AllocError>)
      requires Valid()
      modifies this`slots
      ensures Valid() && (slots == old(slots) || fresh(slots))
      ensures r.Ok? ==>
                slots.Length == if len + additional <= old(slots.Length) then old(slots.Length) else len + additional
      ensures r.Ok? <==> len + additional <= old(slots.Length) || (len + additional <= maxCap && granted)
      ensures r.Err? ==> slots == old(slots)
    {
      if len + additional >= U64_SIZE {
        return Err(AllocError);
      }
      if len + additional <= slots.Length {
        return Ok(());
      }
      r := ReallocTo(len + additional, granted);
    }

    method Grow(granted: bool) returns (r: Result<(), AllocError>)
      requires Valid()
      modifies this`slots
      ensures Valid() && (slots == old(slots) || fresh(slots))
      ensures r.Ok? <==> Doubled(old(slots.Length)) <= maxCap && granted
      ensures r.Ok? ==> slots.Length == if old(slots.Length) == 0 then 1 else 2 * old(slots.Length)
      ensures r.Err? ==> slots.Length == old(slots.Length)
    {
      if 2 * slots.Length >= U64_SIZE {
        return Err(AllocError);
      }
      r := ReallocTo(Doubled(slots.Length), granted);
    }

    /** On failure the pushed element is dropped with the call. */
    method Push(val: T, granted: bool) returns (r: Result<(), AllocError>)
      requires Valid()
      modifies this, slots
      ensures Valid() && (slots == old(slots) || fresh(slots))
      ensures r.Ok? ==> contents == old(contents) + [val] && dropped == old(dropped)
      ensures r.Err? ==> contents == old(contents) && dropped == old(dropped) + [val]
      ensures r.Ok? <==> old(len) < old(slots.Length) || (Doubled(old(slots.Length)) <= maxCap && granted)
      ensures old(len) < old(slots.Length) ==> slots == old(slots)
    {
      if len == slots.Length {
        r := Grow(granted);
        if r.Err? {
          dropped := dropped + [val];
          return;
        }
      }
      slots[len] := Init(val);
      len := len + 1;
      contents := contents + [val];
      return Ok(());
    }

    /** `ptr::read`: moves the element out; the bytes left behind are no longer the vector's. */
    method Read(i: nat) returns (val: T)
      requires i < slots.Length && slots[i].Init?
      modifies slots
      ensures val == old(slots[i]).value && slots[..] == old(slots[..])[i := Uninit]
    {
      val := slots[i].value;
      slots[i] := Uninit;
    }

    method Pop() returns (r: Option<T>)
      requires Valid()
      modifies this, slots
      ensures Valid() && slots == old(slots) && dropped == old(dropped)
      ensures r.None? <==> old(contents) == []
      ensures r.None? ==> contents == []
      ensures r.Some? ==> old(contents) == contents + [r.value]
    {
      if len == 0 {
        return None;
      }
      len := len - 1;
      var val := Read(len);
      contents := contents[..len];
      return Some(val);
    }

    /** The shift in `remove` is a `memmove` of the elements behind the gap. */
    method ShiftLeft(index: nat)
      requires index < len <= slots.Length
      modifies slots
      ensures slots[..] == old(slots[..index] + slots[index + 1..len] + [Uninit] + slots[len..])
    {
      forall i | index <= i < len - 1 {
        slots[i] := slots[i + 1];
      }
      slots[len - 1] := Uninit;
    }

    method Remove(index: nat) returns (val: T)
      requires Valid() && index < len
      modifies this, slots
      ensures Valid() && slots == old(slots) && dropped == old(dropped)
      ensures val == old(contents)[index] && contents == old(contents)[..index] + old(contents)[index + 1..]
    {
      HoldsRemoved(slots[..], contents, index);
      val := Read(index);
      ShiftLeft(index);
      len := len - 1;
      contents := contents[..index] + contents[index + 1..];
    }

    method SwapRemove(index: nat) returns (val: T)
      requires Valid() && index < len
      modifies this, slots
      ensures Valid() && slots == old(slots) && dropped == old(dropped)
      ensures val == old(contents)[index]
      ensures contents == (old(contents)[index := old(contents)[|old(contents)| - 1]])[..|old(contents)| - 1]
    {
      len := len - 1;
      if index != len {
        slots[index], slots[len] := slots[len], slots[index];
      }
      val := Read(len);
      contents := (contents[index := contents[len]])[..len];
    }

    /** `drop_in_place` of the tail, front to back. */
    method Truncate(newLen: nat)
      requires Valid()
      modifies this, slots
      ensures Valid() && slots == old(slots)
      ensures contents == if newLen >= |old(contents)| then old(contents) else old(contents)[..newLen]
      ensures dropped == old(dropped) + old(contents)[|contents|..]
    {
      if newLen >= len {
        return;
      }
      ghost var all := contents;
      var oldLen, i := len, newLen;
      len := newLen;
      contents := contents[..newLen];
      while i < oldLen
        invariant newLen <= i <= oldLen && slots == old(slots)
        invariant forall j :: 0 <= j < slots.Length ==>
                    slots[j] == if newLen <= j < i then Uninit else old(slots[..])[j]
        invariant dropped == old(dropped) + all[newLen..i]
        modifies slots, this`dropped
      {
        var val := Read(i);
        dropped := dropped + [val];
        i := i + 1;
      }
    }

    /** `resize_with`; `made` are the values the generator yields, one per call. */
    method ResizeWith(newLen: nat, granted: bool, made: seq<T>) returns (r: Result<(), AllocError>)
      requires Valid() && newLen <= len + |made|
      modifies this, slots
      ensures Valid() && (slots == old(slots) || fresh(slots))
      ensures r.Ok? <==> newLen <= old(len) || newLen <= old(slots.Length) || (newLen <= maxCap && granted)
      ensures r.Ok? ==> contents == if newLen <= |old(contents)| then old(contents)[..newLen]
                                    else old(contents) + made[..newLen - |old(contents)|]
      ensures r.Err? ==> contents == old(contents)
      ensures dropped == old(dropped) + if newLen <= |old(contents)| then old(contents)[newLen..] else []
    {
      if newLen <= len {
        Truncate(newLen);
        return Ok(());
      }
      var oldLen := len;
      r := Reserve(newLen - len, granted);
      if r.Err? {
        return;
      }
      while len < newLen
        invariant oldLen <= len <= newLen <= slots.Length && Valid()
        invariant contents == old(contents) + made[..len - oldLen] && (slots == old(slots) || fresh(slots))
        modifies this`len, this`contents, slots
      {
        slots[len] := Init(made[len - oldLen]);
        contents := contents + [made[len - oldLen]];
        len := len + 1;
      }
    }

    /** `Drop` */
    method Drop()
      requires Valid()
      modifies this, slots
      ensures Valid() && slots == old(slots) && contents == [] && dropped == old(dropped) + old(contents)
    {
      Truncate(0);
    }
  }

  /** The consuming iterator; `rest` are the elements it still owns. */
  class IntoIter<T> {
    const vec: Vec<T>
    var pos: nat
    ghost var rest: seq<T>

    ghost predicate Valid()
      reads this, vec, vec.slots
    {
      && pos + |rest| == vec.len <= vec.slots.Length
      && (forall i :: pos <= i < vec.len ==> vec.slots[i] == Init(rest[i - pos]))
    }

    constructor (vec: Vec<T>)
      requires vec.Valid()
      ensures Valid() && this.vec == vec && rest == vec.contents
    {
      this.vec, pos, rest := vec, 0, vec.contents;
    }

    method Next() returns (r: Option<T>)
      requires Valid()
      modifies this, vec.slots
      ensures Valid()
      ensures r.None? <==> old(rest) == []
      ensures r.None? ==> rest == []
      ensures r.Some? ==> old(rest) == [r.value] + rest
    {
      if pos >= vec.len {
        return None;
      }
      var val := vec.Read(pos);
      pos, rest := pos + 1, rest[1..];
      return Some(val);
    }

    /** `Drop`: drops what was not consumed and leaves nothing for the vector's own drop. */
    method Drop()
      requires Valid()
      modifies this, vec, vec.slots
      ensures rest == [] && vec.len == 0 && vec.dropped == old(vec.dropped) + old(rest)
      ensures vec.slots == old(vec.slots)
    {
      ghost var all := rest;
      var start := pos;
      while pos < vec.len
        invariant Valid() && start <= pos && vec.len == old(vec.len) && vec.slots == old(vec.slots)
        invariant vec.dropped + rest == old(vec.dropped) + all
        decreases vec.len - pos
      {
        DropNext();
      }
      assert rest == [];
      vec.len := 0;
    }

    method DropNext()
      requires Valid() && rest != []
      modifies this, vec`dropped, vec.slots
      ensures Valid() && pos == old(pos) + 1 && vec.dropped + rest == old(vec.dropped) + old(rest)
    {
      var val := vec.Read(pos);
      vec.dropped := vec.dropped + [val];
      pos, rest := pos + 1, rest[1..];
    }
  }

  datatype Op<T> =
    | Push(val: T, granted: bool)
    | Pop
    | Remove(index: nat)
    | SwapRemove(index: nat)
    | Truncate(newLen: nat)
    | Reserve(additional: nat, granted: bool)
    | Extend(made: seq<T>, granted: bool)  // resize_with to a greater length, which generates these elements

  /** The elements an operation gives to the vector: those pushed in any case, those generated only if there
      is room for them. */
  function Given<T>(op: Op<T>, ok: bool): seq<T> {
    if op.Push? then [op.val] else if op.Extend? && ok then op.made else []
  }

  function AllGiven<T>(ops: seq<Op<T>>, oks: seq<bool>): seq<T>
    requires |ops| == |oks|
  {
    if ops == [] then [] else
    var n := |ops| - 1;
    AllGiven(ops[..n], oks[..n]) + Given(ops[n], oks[n])
  }

  /** Every element is in exactly one place: still held, handed out, or dropped. */
  ghost predicate Conserved<T>(given: seq<T>, held: seq<T>, returned: seq<T>, dropped: seq<T>) {
    multiset(given) == multiset(held) + multiset(returned) + multiset(dropped)
  }

  lemma Removed<T>(s: seq<T>, i: nat)
    requires i < |s|
    ensures multiset(s) == multiset(s[..i] + s[i + 1..]) + multiset([s[i]])
  {
    assert s == s[..i] + [s[i]] + s[i + 1..];
  }

  lemma SwappedOut<T>(s: seq<T>, i: nat)
    requires i < |s|
    ensures multiset(s) == multiset((s[i := s[|s| - 1]])[..|s| - 1]) + multiset([s[i]])
  {
    var last := |s| - 1;
    assert s == s[..last] + [s[last]];
    if i < last {
      assert (s[i := s[last]])[..last] == (s[..last])[i := s[last]];
    } else {
      assert (s[i := s[last]])[..last] == s[..last];
    }
  }

  lemma Split<T>(s: seq<T>, n: nat)
    requires n <= |s|
    ensures multiset(s) == multiset(s[..n]) + multiset(s[n..])
  {
    assert s == s[..n] + s[n..];
  }

  /** Removal by index, which hands out one element. An index out of bounds is a panic, which changes nothing. */
  method TakeAt<T>(v: Vec<T>, index: nat, swap: bool) returns (out: seq<T>)
    requires v.Valid()
    modifies v, v.slots
    ensures v.Valid() && v.slots == old(v.slots) && v.dropped == old(v.dropped)
    ensures multiset(old(v.contents)) == multiset(v.contents) + multiset(out)
  {
    if index >= v.len {
      return [];
    }
    ghost var was := v.contents;
    var val;
    if swap {
      val := v.SwapRemove(index);
      SwappedOut(was, index);
    } else {
      val := v.Remove(index);
      Removed(was, index);
    }
    return [val];
  }

  method TakeLast<T>(v: Vec<T>) returns (out: seq<T>)
    requires v.Valid()
    modifies v, v.slots
    ensures v.Valid() && v.slots == old(v.slots) && v.dropped == old(v.dropped)
    ensures multiset(old(v.contents)) == multiset(v.contents) + multiset(out)
  {
    var popped := v.Pop();
    return if popped.None? then [] else [popped.value];
  }

  /** An operation that hands out an element. */
  method TakeOne<T>(v: Vec<T>, op: Op<T>) returns (out: seq<T>)
    requires v.Valid() && (op.Pop? || op.Remove? || op.SwapRemove?)
    modifies v, v.slots
    ensures v.Valid() && v.slots == old(v.slots) && v.dropped == old(v.dropped)
    ensures multiset(old(v.contents)) == multiset(v.contents) + multiset(out)
  {
    if op.Pop? {
      out := TakeLast(v);
    } else {
      out := TakeAt(v, op.index, op.SwapRemove?);
    }
  }

  /** An operation that may grow or shrink the vector. */
  method PutMore<T>(v: Vec<T>, op: Op<T>) returns (ok: bool)
    requires v.Valid() && (op.Push? || op.Truncate? || op.Reserve? || op.Extend?)
    modifies v, v.slots
    ensures v.Valid() && (v.slots == old(v.slots) || fresh(v.slots))
    ensures multiset(old(v.contents)) + multiset(old(v.dropped)) + multiset(Given(op, ok))
         == multiset(v.contents) + multiset(v.dropped)
  {
    ok := true;
    ghost var was := v.contents;
    match op
    case Push(val, granted) =>
      var r := v.Push(val, granted);
      ok := r.Ok?;
    case Truncate(newLen) =>
      v.Truncate(newLen);
      Split(was, |v.contents|);
    case Reserve(additional, granted) =>
      var r := v.Reserve(additional, granted);
      ok := r.Ok?;
    case Extend(made, granted) =>
      ok := ExtendBy(v, made, granted);
  }

  method ExtendBy<T>(v: Vec<T>, made: seq<T>, granted: bool) returns (ok: bool)
    requires v.Valid()
    modifies v, v.slots
    ensures v.Valid() && (v.slots == old(v.slots) || fresh(v.slots)) && v.dropped == old(v.dropped)
    ensures v.contents == old(v.contents) + if ok then made else []
  {
    var r := v.ResizeWith(v.len + |made|, granted, made);
    assert made[..|made|] == made;
    ok := r.Ok?;
  }

  lemma HandedOut<T>(given: multiset<T>, held: multiset<T>, returned: multiset<T>, dropped: multiset<T>,
                     held': multiset<T>, out: multiset<T>)
    requires given == held + returned + dropped && held == held' + out
    ensures given == held' + (returned + out) + dropped
  {
  }

  lemma TakenIn<T>(given: multiset<T>, held: multiset<T>, returned: multiset<T>, dropped: multiset<T>,
                   held': multiset<T>, dropped': multiset<T>, added: multiset<T>)
    requires given == held + returned + dropped && held + dropped + added == held' + dropped'
    ensures given + added == held' + returned + dropped'
  {
    forall x: T ensures (given + added)[x] == (held' + returned + dropped')[x] {
      assert (held + dropped + added)[x] == (held' + dropped')[x];
    }
  }

  /** One operation, with the elements given to the vector and handed out by it so far. */
  method Apply<T>(v: Vec<T>, op: Op<T>, ghost given: seq<T>, returned: seq<T>) returns (returned': seq<T>, ok: bool)
    requires v.Valid() && Conserved(given, v.contents, returned, v.dropped)
    modifies v, v.slots
    ensures v.Valid() && (v.slots == old(v.slots) || fresh(v.slots))
    ensures Conserved(given + Given(op, ok), v.contents, returned', v.dropped)
  {
    returned', ok := returned, true;
    ghost var held, dropped := multiset(v.contents), multiset(v.dropped);
    if op.Pop? || op.Remove? || op.SwapRemove? {
      var out := TakeOne(v, op);
      returned' := returned + out;
      assert given + [] == given;
      HandedOut(multiset(given), held, multiset(returned), dropped, multiset(v.contents), multiset(out));
    } else {
      ok := PutMore(v, op);
      TakenIn(multiset(given), held, multiset(returned), dropped, multiset(v.contents), multiset(v.dropped),
              multiset(Given(op, ok)));
    }
  }

  lemma OneMoreGiven<T>(ops: seq<Op<T>>, oks: seq<bool>, ok: bool)
    requires |oks| < |ops|
    ensures AllGiven(ops[..|oks| + 1], oks + [ok]) == AllGiven(ops[..|oks|], oks) + Given(ops[|oks|], ok)
  {
    assert ops[..|oks| + 1][..|oks|] == ops[..|oks|] && (oks + [ok])[..|oks|] == oks;
  }

  /** Any operations, with the allocator failing at any of them. */
  method Operate<T>(maxCap: nat, ops: seq<Op<T>>) returns (v: Vec<T>, returned: seq<T>, oks: seq<bool>)
    requires maxCap < U64_SIZE
    ensures v.Valid() && fresh(v) && fresh(v.slots)
    ensures |oks| == |ops| && Conserved(AllGiven(ops, oks), v.contents, returned, v.dropped)
  {
    v := new Vec<T>(maxCap);
    returned, oks := [], [];
    for i := 0 to |ops|
      invariant v.Valid() && fresh(v) && fresh(v.slots)
      invariant |oks| == i && Conserved(AllGiven(ops[..i], oks), v.contents, returned, v.dropped)
    {
      var ok;
      returned, ok := Apply(v, ops[i], AllGiven(ops[..i], oks), returned);
      OneMoreGiven(ops, oks, ok);
      oks := oks + [ok];
    }
    assert ops[..|ops|] == ops;
  }

  /** At most `consumed` calls of `next`. */
  method TakeSome<T>(iter: IntoIter<T>, consumed: nat) returns (taken: seq<T>)
    requires iter.Valid()
    modifies iter, iter.vec.slots
    ensures iter.Valid() && old(iter.rest) == taken + iter.rest
    ensures |taken| == if consumed < |old(iter.rest)| then consumed else |old(iter.rest)|
  {
    taken := [];
    for i := 0 to consumed
      invariant iter.Valid() && taken + iter.rest == old(iter.rest)
      invariant |taken| == i || (|taken| < i && iter.rest == [])
    {
      var next := iter.Next();
      if next.Some? {
        taken := taken + [next.value];
      }
    }
  }

  /** A consuming iteration, abandoned after `consumed` elements. */
  method Iterate<T>(v: Vec<T>, consumed: nat) returns (taken: seq<T>)
    requires v.Valid()
    modifies v, v.slots
    ensures taken <= old(v.contents) && v.len == 0 && v.dropped == old(v.dropped) + old(v.contents)[|taken|..]
    ensures |taken| == if consumed < |old(v.contents)| then consumed else |old(v.contents)|
  {
    var iter := new IntoIter(v);
    taken := TakeSome(iter, consumed);
    assert old(v.contents)[|taken|..] == iter.rest;
    iter.Drop();
  }

  /** The whole life of a vector: every element given to it is handed out or dropped, exactly once. */
  method Life<T>(maxCap: nat, ops: seq<Op<T>>, consumed: nat)
    returns (returned: seq<T>, oks: seq<bool>, ghost dropped: seq<T>)
    requires maxCap < U64_SIZE
    ensures |oks| == |ops| && multiset(AllGiven(ops, oks)) == multiset(returned) + multiset(dropped)
  {
    var v, out;
    v, out, oks := Operate(maxCap, ops);
    ghost var held, before := v.contents, v.dropped;
    var taken := Iterate(v, consumed);
    ghost var rest := held[|taken|..];
    Split(held, |taken|);
    assert held[..|taken|] == taken;
    returned := out + taken;
    dropped := v.dropped;
    AllAccounted(multiset(AllGiven(ops, oks)), multiset(out), multiset(before), multiset(taken), multiset(rest));
  }

  lemma AllAccounted<T>(given: multiset<T>, out: multiset<T>, before: multiset<T>, taken: multiset<T>,
                        rest: multiset<T>)
    requires given == taken + rest + out + before
    ensures given == (out + taken) + (before + rest)
  {
  }
}
