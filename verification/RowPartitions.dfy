/** Rows of a matrix product shared out among workers (examples/mpi-workflow/matrix.py), over exact arithmetic. */
module RowPartitions {

  datatype Rows = Rows(start: nat, count: nat)

  /** row_partition. */
  function RowPartition(n: nat, workers: nat, rank: nat): Rows
    requires workers >= 1
  {
    var base, remainder := n / workers, n % workers;
    Rows(rank * base + if rank < remainder then rank else remainder, base + if rank < remainder then 1 else 0)
  }

  predicate Owns(n: nat, workers: nat, rank: nat, row: nat)
    requires workers >= 1
  {
    var rows := RowPartition(n, workers, rank);
    rows.start <= row < rows.start + rows.count
  }

  /** The ranges are consecutive: they start at 0, each begins where the one before ends, and the last ends at n. */
  lemma {:induction false} Consecutive(n: nat, workers: nat, rank: nat)
    requires workers >= 1
    ensures RowPartition(n, workers, 0).start == 0
    ensures RowPartition(n, workers, rank + 1).start
            == RowPartition(n, workers, rank).start + RowPartition(n, workers, rank).count
    ensures RowPartition(n, workers, workers).start == n
  {
    var base, remainder := n / workers, n % workers;
    assert (rank + 1) * base == rank * base + base;
    assert workers * base + remainder == n;
  }

  /** No two ranks differ by more than one row, and no later rank has more rows than an earlier one. */
  lemma {:induction false} Balanced(n: nat, workers: nat, a: nat, b: nat)
    requires workers >= 1 && a <= b < workers
    ensures var earlier, later := RowPartition(n, workers, a).count, RowPartition(n, workers, b).count;
            later <= earlier <= later + 1
  {
  }

  lemma {:induction false} StartsAscend(n: nat, workers: nat, a: nat, b: nat)
    requires workers >= 1 && a <= b
    ensures RowPartition(n, workers, a).start <= RowPartition(n, workers, b).start
    decreases b - a
  {
    if a < b {
      Consecutive(n, workers, a);
      StartsAscend(n, workers, a + 1, b);
    }
  }

  /** Of the first ranks, one owns each row before the range of the next. */
  lemma {:induction false} OwnerAmong(n: nat, workers: nat, ranks: nat, row: nat) returns (rank: nat)
    requires workers >= 1 && row < RowPartition(n, workers, ranks).start
    ensures rank < ranks && Owns(n, workers, rank, row)
  {
    Consecutive(n, workers, 0);
    assert ranks > 0;
    Consecutive(n, workers, ranks - 1);
    if Owns(n, workers, ranks - 1, row) {
      rank := ranks - 1;
    } else {
      rank := OwnerAmong(n, workers, ranks - 1, row);
    }
  }

  /** Every row belongs to exactly one rank, and no rank has a row outside the matrix. */
  lemma {:induction false} OneOwner(n: nat, workers: nat, row: nat)
    requires workers >= 1
    ensures row < n <==> exists rank: nat :: rank < workers && Owns(n, workers, rank, row)
    ensures forall a: nat, b: nat | Owns(n, workers, a, row) && Owns(n, workers, b, row) :: a == b
  {
    Consecutive(n, workers, 0);
    if row < n {
      var rank := OwnerAmong(n, workers, workers, row);
    }
    forall a: nat | a < workers && Owns(n, workers, a, row)
      ensures row < n
    {
      Consecutive(n, workers, a);
      StartsAscend(n, workers, a + 1, workers);
    }
    forall a: nat, b: nat | a < b && Owns(n, workers, a, row)
      ensures !Owns(n, workers, b, row)
    {
      Consecutive(n, workers, a);
      StartsAscend(n, workers, a + 1, b);
    }
  }

  // ---------------------------------------------------------------- the checksum

  /** Entries of the two factors, of size n. */
  function A(n: nat, i: nat, j: nat): real {
    ((i * n + j + 3) % 97) as real / 97.0
  }

  function B(n: nat, i: nat, j: nat): real {
    ((i * n + j + 11) % 89) as real / 89.0
  }

  /** The sum of f over the numbers from a up to b. */
  function Sum(f: nat -> real, a: nat, b: nat): real
    decreases b - a
  {
    if a >= b then 0.0 else f(a) + Sum(f, a + 1, b)
  }

  /** An entry of the product, the sum of a row of it, and the checksum of some rows. */
  function Entry(n: nat, i: nat, j: nat): real {
    Sum((k: nat) => A(n, i, k) * B(n, k, j), 0, n)
  }

  function RowSum(n: nat, i: nat): real {
    Sum((j: nat) => Entry(n, i, j), 0, n)
  }

  function RowSums(n: nat): nat -> real {
    (i: nat) => RowSum(n, i)
  }

  function Checksum(n: nat, rows: Rows): real {
    Sum(RowSums(n), rows.start, rows.start + rows.count)
  }

  lemma {:induction false} SumSplits(f: nat -> real, a: nat, b: nat, c: nat)
    requires a <= b <= c
    ensures Sum(f, a, c) == Sum(f, a, b) + Sum(f, b, c)
    decreases b - a
  {
    if a < b { SumSplits(f, a + 1, b, c); }
  }

  /** The reduction adds up the checksums of the ranks. */
  function Reduced(n: nat, workers: nat, ranks: nat): real
    requires workers >= 1
  {
    if ranks == 0 then 0.0
    else Reduced(n, workers, ranks - 1) + Checksum(n, RowPartition(n, workers, ranks - 1))
  }

  lemma {:induction false} ReducedSoFar(n: nat, workers: nat, ranks: nat)
    requires workers >= 1
    ensures Reduced(n, workers, ranks) == Sum(RowSums(n), 0, RowPartition(n, workers, ranks).start)
  {
    Consecutive(n, workers, 0);
    if ranks > 0 {
      Consecutive(n, workers, ranks - 1);
      ReducedSoFar(n, workers, ranks - 1);
      var rows := RowPartition(n, workers, ranks - 1);
      SumSplits(RowSums(n), 0, rows.start, rows.start + rows.count);
    }
  }

  /** However many workers there are, the reduced checksum is that of the whole product. */
  lemma {:induction false} WorkersDoNotMatter(n: nat, workers: nat)
    requires workers >= 1
    ensures Reduced(n, workers, workers) == Checksum(n, Rows(0, n))
  {
    ReducedSoFar(n, workers, workers);
    Consecutive(n, workers, 0);
  }
}
