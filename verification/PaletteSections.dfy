/** The search for positions where a new palette pays off. */
module PaletteSections {
  import opened Palettes

  /** Where the sections of size weights start. */
  predicate Restarts(rs: seq<nat>, size: nat) {
    && |rs| >= 1 && rs[0] == 0
    && (forall i :: 0 <= i < |rs| ==> rs[i] < size)
    && (forall i, j :: 0 <= i < j < |rs| ==> rs[i] < rs[j])
  }

  lemma RestartsGrow(rs: seq<nat>, size: nat, r: nat)
    requires Restarts(rs, size) && rs[|rs| - 1] < r < size
    ensures Restarts(rs + [r], size)
  {
  }

  /** ((x - 1) & x) == 0, for x >= -1 in two's complement. */
  predicate IsPowerOfTwo(x: int) {
    x == 0 || (x > 0 && HalvesToOne(x))
  }

  predicate HalvesToOne(x: int)
    requires x > 0
  {
    x == 1 || (x % 2 == 0 && HalvesToOne(x / 2))
  }

  function PaletteIndexBits(size: int): int {
    if size > 128 then 8 else if size > 64 then 7 else if size > 32 then 6 else if size > 16 then 5
    else if size > 8 then 4 else if size > 4 then 3 else if size > 2 then 2 else if size > 1 then 1 else 0
  }

  /** Division as in C, towards zero. */
  function TruncDiv(a: int, b: nat): int
    requires b > 0
  {
    if a >= 0 then a / b else -(-a / b)
  }

  /** Goes back over n + 1 values that are not zero, but not before `last`. */
  method SearchBack(buf: seq<int>, i: nat, last: nat, n: nat) returns (j: nat)
    requires last <= i < |buf|
    ensures last <= j <= i
  {
    var nzcnt := 0;
    j := i;
    while j > last
      invariant last <= j <= i
    {
      if buf[j] != 0 {
        if nzcnt == n + 1 {
          break;
        }
        nzcnt := nzcnt + 1;
      }
      j := j - 1;
    }
  }

  /** How many values occurred at or after `from`. */
  method CountSince(prevIdx: array<int>, from: nat) returns (n: nat) {
    n := 0;
    for j := 0 to prevIdx.Length {
      if prevIdx[j] >= from {
        n := n + 1;
      }
    }
  }

  method CountZerosBetween(buf: seq<int>, from: nat, to: nat) returns (n: nat)
    requires to < |buf|
  {
    n := 0;
    var j := from;
    while j <= to {
      if buf[j] == 0 {
        n := n + 1;
      }
      j := j + 1;
    }
  }

  /** Whether a palette for the last n values that are not zero pays off. */
  function PaysOff(gotPalette: bool, n: int, newSize: int, oldSize: int, excludeZero: int): bool {
    var newBits := PaletteIndexBits(newSize - excludeZero);
    if gotPalette then
      TruncDiv(n * (PaletteIndexBits(oldSize - excludeZero) * 15 - newBits * 15), 16) - newSize * 8 - 20 > 0
    else
      newSize - excludeZero <= 32 && TruncDiv(n * (90 - newBits * 15), 16) - newSize * 8 - 20 > 0
  }

  const WINDOW_SIZES: seq<nat> := [32, 64, 128, 256, 512]

  /** The restart positions start at zero, strictly increase and stay below the size. */
  method SearchPaletteSections(buf: seq<int>) returns (restarts: seq<nat>)
    requires buf != [] && InRange(buf)
    ensures Restarts(restarts, |buf|)
  {
    var prevIdx := new int[512](_ => -1);
    var paletteSize: int, lastRestart, zeroCnt := 0, 0, 0;
    var gotPalette := false;
    restarts := [0];
    var i: nat := 0;
    while i < |buf|
      invariant 0 <= i <= |buf| && Restarts(restarts, |buf|) && lastRestart == restarts[|restarts| - 1]
      invariant if i == 0 then !gotPalette && lastRestart == 0 else lastRestart < i
    {
      var excludeZero := if zeroCnt > (i - lastRestart) / 4 then 1 else 0;
      if gotPalette && prevIdx[buf[i] + 256] < lastRestart {
        // a new value: the palette grows
        paletteSize := paletteSize + 1;
        if IsPowerOfTwo(paletteSize - 1 - excludeZero) {
          if i - lastRestart - zeroCnt > 512 || paletteSize - excludeZero > 32 {
            RestartsGrow(restarts, |buf|, i);
            restarts := restarts + [i];
            lastRestart := i;
            gotPalette := false;
            zeroCnt := 0;
          }
        }
      }
      prevIdx[buf[i] + 256] := i;
      if buf[i] == 0 {
        zeroCnt := zeroCnt + 1;
      }
      for k := 0 to 5
        invariant Restarts(restarts, |buf|) && lastRestart == restarts[|restarts| - 1] && lastRestart <= i
      {
        var n := WINDOW_SIZES[k] * (if gotPalette then 2 else 1);
        var nonZero := i - lastRestart - zeroCnt;
        if nonZero > 0 && nonZero % n == 0 {
          var restart := SearchBack(buf, i, lastRestart, n);
          var newSize := CountSince(prevIdx, restart);
          if PaysOff(gotPalette, n, newSize, paletteSize, excludeZero) {
            paletteSize := newSize;
            gotPalette := true;
            lastRestart := restart;
            if restarts[|restarts| - 1] != lastRestart {
              RestartsGrow(restarts, |buf|, lastRestart);
              restarts := restarts + [lastRestart];
            }
            zeroCnt := CountZerosBetween(buf, lastRestart, i);
          }
        }
      }
      i := i + 1;
    }
  }
}
