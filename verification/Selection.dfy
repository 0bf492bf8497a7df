/** Look-up by the low three bits of an index; nested, it reads a table. */
module Selection {

  function Select<T>(i: bv8, e0: T, e1: T, e2: T, e3: T, e4: T, e5: T, e6: T, e7: T): T {
    if i & 4 == 0 then
      if i & 2 == 0 then (if i & 1 == 0 then e0 else e1) else (if i & 1 == 0 then e2 else e3)
    else
      if i & 2 == 0 then (if i & 1 == 0 then e4 else e5) else (if i & 1 == 0 then e6 else e7)
  }
}
