/** Constant tables, written in rows of eight. */
module Tables {
  function Pick(i: int, a: int, b: int, c: int, d: int, e: int, f: int, g: int, h: int): int {
    if i == 0 then a else if i == 1 then b else if i == 2 then c else if i == 3 then d
    else if i == 4 then e else if i == 5 then f else if i == 6 then g else h
  }
}
