/** The consumer's circular buffer `m_logStringBuffer` with its write index
    `m_curLogBufferEntry`, as a value, and the law that relates its flush
    order to the lines committed into it. */
module LogRing {

  /** The slots and the index of the next slot to be overwritten. */
  datatype RingState = RingState(slots: seq<string>, cur: nat) {
    predicate WellFormed() {
      0 < |slots| && cur < |slots|
    }
  }

  /** `n` empty slots: what a freshly constructed buffer holds. */
  function Blank(n: nat): (b: seq<string>)
    ensures |b| == n
  {
    seq(n, _ => "")
  }

  /** The buffer before anything was committed into it. */
  function Fresh(n: nat): (r: RingState)
    requires n > 0
    ensures r.WellFormed() && |r.slots| == n
  {
    RingState(Blank(n), 0)
  }

  /** A fresh buffer flushes its blank slots. */
  lemma FreshRotation(n: nat)
    requires n > 0
    ensures Rotation(Fresh(n)) == Blank(n)
  {
    var f := Fresh(n);
    assert f.slots[f.cur..] == Blank(n) && f.slots[..f.cur] == [];
  }

  /** The index advance `(cur + 1) % capacity`: one step forward, back to
      slot 0 after the last slot. */
  function Next(cur: nat, n: nat): (k: nat)
    requires cur < n
    ensures k < n
    ensures k == if cur + 1 == n then 0 else cur + 1
  {
    (cur + 1) % n
  }

  /** One ring commit: overwrite the slot under the index and advance the
      index modulo the capacity. */
  function Commit(r: RingState, line: string): (r': RingState)
    requires r.WellFormed()
    ensures r'.WellFormed() && |r'.slots| == |r.slots|
  {
    RingState(r.slots[r.cur := line], Next(r.cur, |r.slots|))
  }

  /** A commit writes the new line into the slot under the index, leaves
      every other slot as it was, and moves the index one step forward,
      back to slot 0 after the last slot. */
  lemma CommitOverwritesOne(r: RingState, line: string, i: nat)
    requires r.WellFormed() && i < |r.slots|
    ensures Commit(r, line).slots[i] == if i == r.cur then line else r.slots[i]
    ensures Commit(r, line).cur == if r.cur + 1 == |r.slots| then 0 else r.cur + 1
  {
  }

  /** Commit the lines one after the other, oldest first. */
  function CommitAll(r: RingState, lines: seq<string>): (r': RingState)
    requires r.WellFormed()
    ensures r'.WellFormed() && |r'.slots| == |r.slots|
    decreases |lines|
  {
    if lines == [] then r else Commit(CommitAll(r, lines[..|lines| - 1]), lines[|lines| - 1])
  }

  /** The order in which the flush visits the slots: from the index to the
      end, then from the start up to the index. */
  function Rotation(r: RingState): (s: seq<string>)
    requires r.WellFormed()
    ensures |s| == |r.slots|
  {
    r.slots[r.cur..] + r.slots[..r.cur]
  }

  /** The last `n` elements of `h`. */
  function Newest<T>(h: seq<T>, n: nat): (s: seq<T>)
    requires n <= |h|
    ensures |s| == n && h == h[..|h| - n] + s
  {
    h[|h| - n..]
  }

  /** Overwriting element `c` leaves the part after it alone and ends the
      part up to it with the new element. */
  lemma UpdateSlices<T>(s: seq<T>, c: nat, x: T)
    requires c < |s|
    ensures s[c := x][c + 1..] == s[c + 1..]
    ensures s[c := x][..c + 1] == s[..c] + [x]
  {
  }

  /** A commit drops the oldest slot of the flush order and appends the new
      line as the newest. */
  lemma CommitRotates(r: RingState, line: string)
    requires r.WellFormed()
    ensures Rotation(Commit(r, line)) == Rotation(r)[1..] + [line]
  {
    var s, c := r.slots, r.cur;
    var s' := s[c := line];
    UpdateSlices(s, c, line);
    assert Rotation(r)[1..] == s[c + 1..] + s[..c] by {
      assert s[c..] == [s[c]] + s[c + 1..];
    }
    if c + 1 < |s| {
      assert Rotation(Commit(r, line)) == s'[c + 1..] + s'[..c + 1];
    } else {
      assert s'[..c + 1] == s';
      assert Rotation(Commit(r, line)) == s'[0..] + s'[..0];
    }
  }

  /** Appending to a history shifts its window of the newest `n` by one. */
  lemma NewestAppend<T>(h: seq<T>, x: T, n: nat)
    requires 0 < n <= |h|
    ensures Newest(h + [x], n) == Newest(h, n)[1..] + [x]
  {
    assert (h + [x])[|h| + 1 - n..] == h[|h| + 1 - n..] + [x];
  }

  /** The ring law, for any starting contents: after committing `lines`,
      the flush order is the newest `capacity` elements of the old flush
      order followed by the lines. */
  lemma {:induction false} CommitAllNewest(r: RingState, lines: seq<string>)
    requires r.WellFormed()
    ensures Rotation(CommitAll(r, lines)) == Newest(Rotation(r) + lines, |r.slots|)
    decreases |lines|
  {
    var n := |r.slots|;
    if lines == [] {
      assert Rotation(r) + lines == Rotation(r);
    } else {
      var init, last := lines[..|lines| - 1], lines[|lines| - 1];
      assert lines == init + [last];
      CommitAllNewest(r, init);
      CommitRotates(CommitAll(r, init), last);
      NewestAppend(Rotation(r) + init, last, n);
      assert Rotation(r) + lines == (Rotation(r) + init) + [last];
    }
  }

  /** The wrap law: once at least `capacity` lines have been committed, the
      flush gives exactly the last `capacity` of them, oldest first. */
  lemma WrapLaw(r: RingState, lines: seq<string>)
    requires r.WellFormed() && |lines| >= |r.slots|
    ensures Rotation(CommitAll(r, lines)) == Newest(lines, |r.slots|)
  {
    CommitAllNewest(r, lines);
    var n := |r.slots|;
    assert (Rotation(r) + lines)[|Rotation(r)| + |lines| - n..] == lines[|lines| - n..];
  }

  /** Before the buffer is full, the flush of a fresh buffer gives the unused
      (empty) slots and then every committed line, oldest first. */
  lemma PartialFill(n: nat, lines: seq<string>)
    requires 0 < n && |lines| < n
    ensures Rotation(CommitAll(Fresh(n), lines)) == Blank(n - |lines|) + lines
  {
    CommitAllNewest(Fresh(n), lines);
    FreshRotation(n);
    NewestAfterBlank(n, lines);
  }

  /** The newest `n` of `n` blank slots followed by fewer than `n` lines:
      the remaining blank slots, then all the lines. */
  lemma NewestAfterBlank(n: nat, lines: seq<string>)
    requires |lines| < n
    ensures Newest(Blank(n) + lines, n) == Blank(n - |lines|) + lines
  {
    var k := |lines|;
    var h := Blank(n) + lines;
    assert Newest(h, n) == h[k..];
    assert h[k..] == Blank(n)[k..] + lines;
    BlankSuffix(n, k);
  }

  /** Dropping `k` blank slots leaves `n - k` blank slots. */
  lemma BlankSuffix(n: nat, k: nat)
    requires k <= n
    ensures Blank(n)[k..] == Blank(n - k)
  {
    assert forall i | 0 <= i < n - k :: Blank(n)[k..][i] == Blank(n - k)[i];
  }

  /** The flush of a buffer that started blank, in both regimes: the
      newest `n` of the blank slots followed by the commits, which is the
      newest `n` commits once there are at least `n` of them. */
  lemma FlushOfCommits(n: nat, lines: seq<string>)
    requires n > 0
    ensures Rotation(CommitAll(Fresh(n), lines)) == Newest(Blank(n) + lines, n)
    ensures |lines| >= n ==> Rotation(CommitAll(Fresh(n), lines)) == Newest(lines, n)
  {
    CommitAllNewest(Fresh(n), lines);
    FreshRotation(n);
    if |lines| >= n {
      WrapLaw(Fresh(n), lines);
    }
  }

  /** Capacity 3 and the lines m1 to m5: the flush gives m3, m4, m5. */
  lemma ThreeSlotExample()
    ensures Rotation(CommitAll(Fresh(3), ["m1", "m2", "m3", "m4", "m5"])) == ["m3", "m4", "m5"]
  {
    WrapLaw(Fresh(3), ["m1", "m2", "m3", "m4", "m5"]);
  }
}
