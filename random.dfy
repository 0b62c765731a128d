/** Python's `random.randint(lo, hi)` as a nondeterministic choice: the model
    promises only that the value lies in the closed range [lo, hi]. Python
    raises ValueError when lo > hi; callers must rule that out. */
module Random {

  method RandInt(lo: int, hi: int) returns (r: int)
    requires lo <= hi
    ensures lo <= r <= hi
  {
    r :| lo <= r <= hi;
  }
}
