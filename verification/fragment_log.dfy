/** Lists of received fragments: pieces of bytes at offsets, in order of arrival. */
module FragmentLogs {
  import opened Basics

  datatype Fragment = Fragment(offset: nat, bytes: seq<Byte>) {
    function End(): nat { offset + |bytes| }

    ghost predicate Holds(p: int) { offset <= p < End() }
  }

  ghost predicate LogCovers(log: seq<Fragment>, p: int) {
    exists i :: 0 <= i < |log| && log[i].Holds(p)
  }

  ghost predicate CoversAll(log: seq<Fragment>, size: nat) {
    forall p :: 0 <= p < size ==> LogCovers(log, p)
  }

  ghost predicate Fits(log: seq<Fragment>, size: nat) {
    forall i :: 0 <= i < |log| ==> log[i].End() <= size
  }

  ghost predicate SlicesOf(log: seq<Fragment>, sample: seq<Byte>) {
    forall i :: 0 <= i < |log| ==>
      log[i].End() <= |sample| && log[i].bytes == sample[log[i].offset..log[i].End()]
  }

  lemma CoversSnoc(log: seq<Fragment>, f: Fragment, p: int)
    ensures LogCovers(log + [f], p) <==> LogCovers(log, p) || f.Holds(p)
  {
    var all := log + [f];
    if LogCovers(log, p) {
      var i :| 0 <= i < |log| && log[i].Holds(p);
      assert all[i].Holds(p);
    }
    if f.Holds(p) {
      assert all[|log|].Holds(p);
    }
    if LogCovers(all, p) && !f.Holds(p) {
      var i :| 0 <= i < |all| && all[i].Holds(p);
      assert log[i].Holds(p);
    }
  }
}
