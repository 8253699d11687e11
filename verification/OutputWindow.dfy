/**
  The circular window of inflate(): updatewindow(), the place a match is copied from, and
  inflateGetDictionary().

  The abstract value is what inflateGetDictionary copies out: the window read from the
  write index to the end and then from the start.  After any sequence of updates it is the
  tail of everything written.
 */
module OutputWindow {
  import opened Bits

  // The last n elements, or all of them if there are fewer.
  function Last<T>(s: seq<T>, n: nat): (r: seq<T>)
    ensures |r| == if |s| <= n then |s| else n
  {
    if |s| <= n then s else s[|s| - n..]
  }

  lemma LastOfLast<T>(s: seq<T>, t: seq<T>, n: nat)
    ensures Last(Last(s, n) + t, n) == Last(s + t, n)
  {
  }

  lemma LastAt<T>(s: seq<T>, n: nat, d: nat)
    requires 1 <= d <= |Last(s, n)|
    ensures d <= |s| && Last(s, n)[|Last(s, n)| - d] == s[|s| - d]
  {
  }

  // The window read from the write index and wrapped.
  function Ring(win: seq<nat>, next: nat, have: nat): (r: seq<nat>)
    requires next <= have <= |win|
    ensures |r| == have
  {
    win[next..have] + win[..next]
  }

  // Indices of a window of n bytes: it fills up once and stays full.
  predicate Placed(n: nat, next: nat, have: nat) {
    (have < n && next == have) || (have == n && next < n)
  }

  lemma PlacedBounds(n: nat, next: nat, have: nat)
    requires Placed(n, next, have)
    ensures next < n && next <= have <= n
  {
  }

  // A window overwritten as a whole.
  lemma RingWhole(before: seq<nat>, next: nat, have: nat, data: seq<nat>, after: seq<nat>)
    requires |before| == |after| && Placed(|before|, next, have) && |data| >= |before|
    requires after == data[|data| - |before|..]
    ensures Ring(after, 0, |after|) == Last(Ring(before, next, have) + data, |before|)
  {
    assert Ring(after, 0, |after|) == after;
    LastOfMany(Ring(before, next, have), data, |before|);
  }

  lemma LastOfMany<T>(s: seq<T>, t: seq<T>, n: nat)
    requires |t| >= n
    ensures Last(s + t, n) == t[|t| - n..]
  {
  }

  // Data that fits between the write index and the end.
  lemma RingAhead(before: seq<nat>, next: nat, have: nat, data: seq<nat>, after: seq<nat>)
    requires |before| == |after| && Placed(|before|, next, have) && |data| < |before|
    requires next + |data| <= |before|
    requires after == before[..next] + data + before[next + |data|..]
    ensures var next' := if next + |data| == |before| then 0 else next + |data|;
            var have' := if have < |before| then have + |data| else have;
            Placed(|after|, next', have')
            && Ring(after, next', have') == Last(Ring(before, next, have) + data, |before|)
  {
    var n := |before|;
    var next' := if next + |data| == n then 0 else next + |data|;
    var have' := if have < n then have + |data| else have;
    var was, r, l := Ring(before, next, have), Ring(after, next', have'), Last(Ring(before, next, have) + data, n);
    if have == n {
      assert was == before[next..] + before[..next];
      assert l == (was + data)[|data|..];
      if next + |data| == n {
        assert r == after;
      } else {
        assert r == after[next'..] + after[..next'];
      }
    } else {
      assert was == before[..next];
      assert l == before[..next] + data;
      assert r == after[..have'];
    }
  }

  // Data that wraps around.
  lemma RingWrap(before: seq<nat>, next: nat, have: nat, data: seq<nat>, after: seq<nat>)
    requires |before| == |after| && Placed(|before|, next, have) && |data| < |before| < next + |data|
    requires after == data[|before| - next..] + before[next + |data| - |before|..next] + data[..|before| - next]
    ensures var next' := next + |data| - |before|;
            Placed(|after|, next', |after|)
            && Ring(after, next', |after|) == Last(Ring(before, next, have) + data, |before|)
  {
    var n, k := |before|, |before| - next;
    var next' := |data| - k;
    var was := Ring(before, next, have);
    var kept := before[next'..next];
    assert before[..next][next'..] == kept;
    if have < n {
      assert was == [] + before[..next];
      DropJoin([], before[..next], data, next');
    } else {
      DropJoin(before[next..], before[..next], data, |data|);
    }
    assert Last(was + data, n) == kept + data;
    WrapOrder(after, kept, data, k);
  }

  lemma DropJoin<T>(a: seq<T>, b: seq<T>, c: seq<T>, k: nat)
    requires |a| <= k <= |a| + |b|
    ensures (a + b + c)[k..] == b[k - |a|..] + c
  {
  }

  lemma WrapOrder(after: seq<nat>, kept: seq<nat>, data: seq<nat>, k: nat)
    requires k <= |data| && after == data[k..] + kept + data[..k]
    ensures Ring(after, |data| - k, |after|) == kept + data
  {
    assert after[|data| - k..] == kept + data[..k];
    assert after[..|data| - k] == data[k..];
    assert data[..k] + data[k..] == data;
  }

  // Where the byte at distance d back is kept.
  lemma RingAt(win: seq<nat>, next: nat, have: nat, d: nat)
    requires Placed(|win|, next, have) && 1 <= d <= have
    ensures d <= next ==> Ring(win, next, have)[have - d] == win[next - d]
    ensures d > next ==> have == |win| && Ring(win, next, have)[have - d] == win[|win| + next - d]
  {
  }

  // dst with part written at position to.
  function Written(dst: seq<nat>, to: nat, part: seq<nat>): (r: seq<nat>)
    requires to + |part| <= |dst|
    ensures |r| == |dst|
  {
    dst[..to] + part + dst[to + |part|..]
  }

  method CopyBytes(src: array<nat>, from: nat, dst: array<nat>, to: nat, n: nat)
    requires src != dst && from + n <= src.Length && to + n <= dst.Length
    modifies dst
    ensures dst[..] == Written(old(dst[..]), to, src[from..from + n])
  {
    hide Written;
    ghost var was, part := dst[..], src[from..from + n];
    WrittenNone(was, to);
    assert part[..0] == [];
    for i := 0 to n
      invariant dst[..] == Written(was, to, part[..i])
    {
      WrittenNext(was, to, part, i);
      dst[to + i] := src[from + i];
    }
    assert part[..n] == part;
  }

  lemma WrittenNone(dst: seq<nat>, to: nat)
    requires to <= |dst|
    ensures Written(dst, to, []) == dst
  {
  }

  lemma WrittenNext(dst: seq<nat>, to: nat, part: seq<nat>, i: nat)
    requires to + |part| <= |dst| && i < |part|
    ensures Written(dst, to, part[..i])[to + i := part[i]] == Written(dst, to, part[..i + 1])
  {
  }

  class Window {
    const size: nat
    const window: array<nat>
    var wsize: nat       // zero until the first update
    var whave: nat       // how much of the window is filled
    var wnext: nat       // where the next byte goes

    ghost predicate Valid()
      reads this, window
    {
      && window.Length == size > 0
      && (wsize == 0 || wsize == size)
      && if wsize == 0 then whave == wnext == 0 else Placed(size, wnext, whave)
    }

    ghost function Contents(): (s: seq<nat>)
      requires Valid()
      reads this, window
    {
      Ring(window[..], wnext, whave)
    }

    constructor (wbits: nat)
      requires 8 <= wbits <= 15
      ensures Valid() && fresh(window) && wsize == 0 && Contents() == [] && size == Pow2(wbits)
    {
      ShlOne(wbits);
      size := Shl(1, wbits);
      window := new nat[Shl(1, wbits)];
      wsize, whave, wnext := 0, 0, 0;
    }

    // updatewindow: take in the last copy bytes of the output before end.
    method Update(output: array<nat>, end: nat, copy: nat)
      requires Valid() && copy <= end <= output.Length && output != window
      modifies this`wsize, this`whave, this`wnext, window
      ensures Valid() && wsize == size
      ensures Contents() == Last(old(Contents()) + output[end - copy..end], size)
    {
      hide Last, Ring;
      if wsize == 0 {
        wsize := size;
        wnext := 0;
        whave := 0;
      }
      if copy >= wsize {
        Replace(output, end, copy);
      } else {
        Append(output, end, copy);
      }
    }

    method Replace(output: array<nat>, end: nat, copy: nat)
      requires Valid() && wsize == size <= copy <= end <= output.Length && output != window
      modifies this`whave, this`wnext, window
      ensures Valid()
      ensures Contents() == Last(old(Contents()) + output[end - copy..end], size)
    {
      hide Last, Ring, Written;
      ghost var data := output[end - copy..end];
      ghost var before, next, have := window[..], wnext, whave;
      CopyBytes(output, end - wsize, window, 0, wsize);
      wnext := 0;
      whave := wsize;
      WholeCopied(before, data, window[..], output[..], end);
      RingWhole(before, next, have, data, window[..]);
    }

    method Append(output: array<nat>, end: nat, copy: nat)
      requires Valid() && copy < wsize == size && copy <= end <= output.Length && output != window
      modifies this`whave, this`wnext, window
      ensures Valid()
      ensures Contents() == Last(old(Contents()) + output[end - copy..end], size)
    {
      hide Last, Ring, Placed, Written;
      PlacedBounds(size, wnext, whave);
      ghost var before := window[..];
      var dist := wsize - wnext;
      if dist > copy {
        dist := copy;
      }
      CopyBytes(output, end - copy, window, wnext, dist);
      if copy > dist {
        WrapAround(output, end, copy, copy - dist, before);
      } else {
        Ahead(before, window[..], output[..], wnext, whave, end, copy);
        MoveOn(dist);
      }
    }

    // The rest of the data goes to the start of the window.
    method WrapAround(output: array<nat>, end: nat, ghost copy: nat, left: nat, ghost before: seq<nat>)
      requires |before| == window.Length == size == wsize && Placed(size, wnext, whave)
      requires 0 < left < copy < size && copy <= end <= output.Length && output != window && copy - left == size - wnext
      requires window[..] == Written(before, wnext, output[end - copy..end - left])
      modifies this`whave, this`wnext, window
      ensures Placed(size, wnext, whave)
      ensures Ring(window[..], wnext, whave)
              == Last(Ring(before, old(wnext), old(whave)) + output[end - copy..end], size)
    {
      hide Last, Ring, Placed, Written;
      PlacedBounds(size, wnext, whave);
      ghost var mid, next, have := window[..], wnext, whave;
      CopyBytes(output, end - left, window, 0, left);
      Wrapped(before, mid, window[..], output[..], next, have, end, copy);
      wnext := left;
      whave := wsize;
    }

    method MoveOn(dist: nat)
      requires wsize == size && Placed(size, wnext, whave) && wnext + dist <= size
      modifies this`whave, this`wnext
      ensures wnext == if old(wnext) + dist == size then 0 else old(wnext) + dist
      ensures whave == if old(whave) < size then old(whave) + dist else old(whave)
    {
      wnext := wnext + dist;
      if wnext == wsize {
        wnext := 0;
      }
      if whave < wsize {
        whave := whave + dist;
      }
    }

    // Where to copy the byte at distance back from, and how many follow it without wrapping.
    method Locate(back: nat) returns (from: nat, copy: nat)
      requires Valid() && 1 <= back <= whave
      ensures 1 <= copy <= back && from + copy <= window.Length
      ensures window[from..from + copy] == Contents()[whave - back..][..copy]
    {
      hide Ring;
      copy := back;
      if copy > wnext {
        copy := copy - wnext;
        from := wsize - copy;
      } else {
        from := wnext - copy;
      }
      RunAt(back);
    }

    // The bytes that start at distance back, up to the write index or the end of the window.
    lemma RunAt(back: nat)
      requires Valid() && 1 <= back <= whave
      ensures back <= wnext ==> window[wnext - back..wnext] == Contents()[whave - back..]
      ensures back > wnext ==> wsize + wnext >= back
      ensures back > wnext ==> window[wsize + wnext - back..wsize] == Contents()[whave - back..][..back - wnext]
    {
      hide Ring;
      var win, tail := window[..], Contents()[whave - back..];
      if back <= wnext {
        var part := win[wnext - back..wnext];
        forall i | 0 <= i < back ensures part[i] == tail[i] {
          RingAt(win, wnext, whave, back - i);
        }
        assert part == tail;
      } else {
        RingAt(win, wnext, whave, back);
        var part, run := win[wsize + wnext - back..wsize], tail[..back - wnext];
        forall i | 0 <= i < back - wnext ensures part[i] == run[i] {
          RingAt(win, wnext, whave, back - i);
        }
        assert part == run;
      }
    }

    // inflateGetDictionary
    method GetDictionary(dictionary: array<nat>) returns (length: nat)
      requires Valid() && whave <= dictionary.Length && dictionary != window
      modifies dictionary
      ensures length == whave && dictionary[..length] == Contents()
      ensures dictionary[length..] == old(dictionary[length..])
    {
      if whave > 0 {
        CopyBytes(window, wnext, dictionary, 0, whave - wnext);
        CopyBytes(window, 0, dictionary, whave - wnext, wnext);
      }
      length := whave;
    }
  }

  lemma WholeCopied(before: seq<nat>, data: seq<nat>, after: seq<nat>, output: seq<nat>, end: nat)
    requires |data| <= end <= |output| && data == output[end - |data|..end] && |before| <= |data|
    requires after == Written(before, 0, output[end - |before|..end - |before| + |before|])
    ensures after == data[|data| - |before|..]
  {
  }

  lemma AheadCopied(before: seq<nat>, data: seq<nat>, output: seq<nat>, after: seq<nat>, next: nat, end: nat, copy: nat)
    requires copy <= end <= |output| && next + copy <= |before| && data == output[end - copy..end]
    requires after == Written(before, next, output[end - copy..end - copy + copy])
    ensures |after| == |before| && after == before[..next] + data + before[next + |data|..]
  {
  }

  lemma Ahead(before: seq<nat>, after: seq<nat>, output: seq<nat>, next: nat, have: nat, end: nat, copy: nat)
    requires Placed(|before|, next, have) && copy <= end <= |output| && next + copy <= |before| && copy < |before|
    requires after == Written(before, next, output[end - copy..end - copy + copy])
    ensures |after| == |before|
    ensures var next' := if next + copy == |before| then 0 else next + copy;
            var have' := if have < |before| then have + copy else have;
            Placed(|after|, next', have')
            && Ring(after, next', have') == Last(Ring(before, next, have) + output[end - copy..end], |before|)
  {
    hide Ring, Last, Written;
    var data := output[end - copy..end];
    AheadCopied(before, data, output, after, next, end, copy);
    RingAhead(before, next, have, data, after);
  }

  lemma Wrapped(before: seq<nat>, mid: seq<nat>, after: seq<nat>, output: seq<nat>, next: nat, have: nat, end: nat,
                copy: nat)
    requires Placed(|before|, next, have) && copy <= end <= |output| && |before| - next < copy < |before|
    requires var dist := |before| - next;
             mid == Written(before, next, output[end - copy..end - copy + dist])
             && after == Written(mid, 0, output[end - (copy - dist)..end - (copy - dist) + (copy - dist)])
    ensures |after| == |before| && Placed(|before|, next + copy - |before|, |before|)
    ensures Ring(after, next + copy - |before|, |before|)
            == Last(Ring(before, next, have) + output[end - copy..end], |before|)
  {
    hide Ring, Last, Written;
    var data := output[end - copy..end];
    WrapCopied(before, mid, after, output, next, end, copy, |before| - next);
    RingWrap(before, next, have, data, after);
  }

  lemma WrapCopied(before: seq<nat>, mid: seq<nat>, after: seq<nat>, output: seq<nat>, next: nat, end: nat, copy: nat,
                   dist: nat)
    requires next < |before| && dist == |before| - next < copy < |before| && copy <= end <= |output|
    requires mid == Written(before, next, output[end - copy..end - copy + dist])
    requires after == Written(mid, 0, output[end - (copy - dist)..end - (copy - dist) + (copy - dist)])
    ensures var data := output[end - copy..end];
            after == data[dist..] + before[copy - dist..next] + data[..dist]
  {
    var data, left := output[end - copy..end], copy - dist;
    var a, b := data[..dist], data[dist..];
    assert a == output[end - copy..end - copy + dist];
    assert b == output[end - left..end - left + left];
    WrittenEnd(before, next, a);
    assert after == b + mid[left..];
    assert mid[left..] == before[left..next] + a;
    Assoc(b, before[left..next], a);
  }

  lemma WrittenEnd(dst: seq<nat>, to: nat, part: seq<nat>)
    requires to + |part| == |dst|
    ensures Written(dst, to, part) == dst[..to] + part
  {
  }
}
