/**
 Counting events in sliding windows of time. Both the rate limiter and the
 login lockout promise "at most n events in any window of length w"; each
 proves that event n later than another comes at least w later, and this
 module turns that spacing into the counting bound.
 */
module Windows {

  ghost predicate Sorted(s: seq<real>) {
    forall i, j | 0 <= i < j < |s| :: s[i] <= s[j]
  }

  /** Any two events n positions apart are at least w apart in time. */
  ghost predicate Spaced(s: seq<real>, n: nat, w: real) {
    forall i, j | 0 <= i && i + n <= j < |s| :: s[i] + w <= s[j]
  }

  /** How many events lie in the half-open window [lo, hi). */
  ghost function CountIn(s: seq<real>, lo: real, hi: real): nat {
    if s == [] then 0
    else CountIn(s[..|s| - 1], lo, hi) + if lo <= s[|s| - 1] < hi then 1 else 0
  }

  lemma {:induction false} CountSkipsEarly(s: seq<real>, k: nat, lo: real, hi: real)
    requires k <= |s|
    requires forall i | 0 <= i < k :: s[i] < lo
    ensures CountIn(s, lo, hi) <= |s| - k
  {
    if s != [] {
      var init := s[..|s| - 1];
      CountSkipsEarly(init, if k < |s| then k else k - 1, lo, hi);
    }
  }

  lemma {:induction false} WindowBound(s: seq<real>, n: nat, w: real, lo: real)
    requires n >= 1 && Sorted(s) && Spaced(s, n, w)
    ensures CountIn(s, lo, lo + w) <= n
  {
    if s != [] {
      var last := |s| - 1;
      if s[last] < lo + w {
        CountSkipsEarly(s, if last >= n then last - n + 1 else 0, lo, lo + w) by {
          if last >= n {
            assert s[last - n] + w <= s[last];
            assert forall i | 0 <= i < last - n + 1 :: s[i] <= s[last - n];
          }
        }
      } else {
        WindowBound(s[..last], n, w, lo);
      }
    }
  }
}
