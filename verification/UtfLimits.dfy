/** Where the table round trip stops: the reader's saturating `+8` on pool offsets. */
module UtfLimits {
  import opened BitOps
  import opened Bytes
  import opened Wrappers
  import B = UtfBuild
  import P = UtfParse
  import opened UtfRoundTrip

  /** The pool's last string: its NUL is the pool's last byte. */
  ghost predicate EndsWith(p: B.Pool, s: bytes) {
    s in p.offsets && p.offsets[s] + |s| + 1 == |p.data|
  }

  lemma {:induction false} LastText(texts: seq<bytes>) returns (s: bytes)
    requires texts != []
    ensures s in texts && EndsWith(B.InternAll(B.FIRST_POOL, texts), s)
  {
    var front, last := texts[..|texts| - 1], texts[|texts| - 1];
    var p := B.InternAll(B.FIRST_POOL, front);
    if front == [] {
      s := last;
      assert p == B.FIRST_POOL;
    } else if last in p.offsets {
      s := LastText(front);
    } else {
      s := last;
    }
  }

  /** Every text the table mentions, its own name included, resolves to itself at the offset the
      builder gave it. Readers never look the table's own name up. */
  ghost predicate AllTextsRead(t: B.Table, r: Option<P.HighTable>) {
    r.Some? && forall s :: s in B.Texts(t) ==> P.GetString(r.value, B.OffsetOf(B.PoolOf(t), s)) == Some(s)
  }

  lemma {:induction false} TextsReadWithin(t: B.Table)
    requires B.Accepts(t) && B.DataStart(t) <= U32_MAX
    requires forall s :: s in B.Texts(t) ==> 0 !in s
    ensures AllTextsRead(t, P.Parse(B.TableBytes(t)))
  {
    hide P.Parse, B.TableBytes, B.DataStart, B.Accepts, P.StringsOf, P.UpToNul, B.Texts, B.InternAll;
    assert B.TableBytes(t) + [] == B.TableBytes(t);
    TableParses(t, []);
    var p := B.PoolOf(t);
    B.FirstPoolWell();
    B.InternAllKeeps(B.FIRST_POOL, B.Texts(t));
    forall s | s in B.Texts(t) ensures P.GetString(P.Parse(B.TableBytes(t)).value, B.OffsetOf(p, s)) == Some(s) {
      PoolReadsBack(p, s);
      WholeIffNulFree(s);
    }
  }

  /** A pool cut short loses its last string. */
  lemma {:induction false} CutPool(p: B.Pool, s: bytes, n: nat)
    requires B.WellPooled(p) && EndsWith(p, s) && 0 !in s && n < |p.data|
    requires P.ParseStrings(p.data[..n]).Some?
    ensures p.offsets[s] in P.StringsOf(p.data[..n]) ==> P.StringsOf(p.data[..n])[p.offsets[s]] != s
  {
    var o, cut := p.offsets[s], p.data[..n];
    if o in P.StringsOf(cut) {
      var r := P.UpToNul(cut[o..]);
      assert |cut[o..]| <= |s| && |cut[o..]| > 0;
      assert cut[o..][n - o - 1] == 0;
    }
  }

  /** Past the limit the reader's data offset saturates, so the pool it sees is cut short. */
  lemma {:induction false} StringsCut(t: B.Table)
    requires B.Accepts(t) && B.DataStart(t) > U32_MAX && P.Parse(B.TableBytes(t)).Some?
    ensures 0 <= U32_MAX - B.StringStart(t) < |B.PoolOf(t).data|
    ensures P.ParseStrings(B.PoolOf(t).data[..U32_MAX - B.StringStart(t)]) ==
            Some(P.Parse(B.TableBytes(t)).value.strings)
  {
    hide At, P.Parse, B.TableBytes, P.StringsOf, P.ParseStrings, B.PoolOf, B.Width, P.HeaderOf, B.Accepts,
      B.TotalSize, P.RowsOf, P.Width, P.TypeOf;
    var b, p := B.TableBytes(t), B.PoolOf(t);
    assert b + [] == b;
    HeaderReadBack(t, []);
    P.ParsedShape(b);
    Bounds(t);
    var h := P.Parse(b).value;
    assert h.header.dataPoolOffset == U32_MAX;
    assert h.header.stringPoolOffset == B.StringStart(t);
    Sections(t);
    AtFits(b, B.StringStart(t), p.data);
    assert h.alloc[B.StringStart(t)..U32_MAX] == p.data[..U32_MAX - B.StringStart(t)];
  }

  lemma {:induction false} TextsLostBeyond(t: B.Table)
    requires B.Accepts(t) && B.DataStart(t) > U32_MAX
    requires forall s :: s in B.Texts(t) ==> 0 !in s
    ensures !AllTextsRead(t, P.Parse(B.TableBytes(t)))
  {
    if P.Parse(B.TableBytes(t)).Some? {
      hide P.Parse, B.TableBytes, P.StringsOf, B.InternAll, B.Accepts, B.DataStart, B.StringStart;
      StringsCut(t);
      var p, n := B.PoolOf(t), U32_MAX - B.StringStart(t);
      var s := LastText(B.Texts(t));
      B.PoolCovers(t);
      CutPool(p, s, n);
      assert P.GetString(P.Parse(B.TableBytes(t)).value, B.OffsetOf(p, s)) != Some(s);
    }
  }

  /** For tables whose texts hold no NUL: all of them, the table's own name included, are in the
      parsed pool exactly when the data pool starts at or below 0xffff_ffff. */
  lemma {:induction false} TextsReadIff(t: B.Table)
    requires B.Accepts(t)
    requires forall s :: s in B.Texts(t) ==> 0 !in s
    ensures AllTextsRead(t, P.Parse(B.TableBytes(t))) <==> B.DataStart(t) <= U32_MAX
  {
    hide AllTextsRead, B.DataStart, B.Accepts, B.Texts;
    if B.DataStart(t) <= U32_MAX {
      TextsReadWithin(t);
    } else {
      TextsLostBeyond(t);
    }
  }
}
