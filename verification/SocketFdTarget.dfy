/** src/linux/procfs/SocketFdTarget.cpp: the inode named by a descriptor's link text. */
module SocketFdTarget {
  import opened Common
  import opened Decimal

  const PREFIX := "socket:["

  function Parse(target: string): Result<Option<nat>> {
    if !(PREFIX <= target) then Success(None)
    else if |target| <= |PREFIX| + 1 || target[|target| - 1] != ']' then Fail(ParseError)
    else
      var digits := target[|PREFIX|..|target| - 1];
      match ParseUnsigned(digits, MAX_UINT64)
      case Some(inode) => Success(Some(inode))
      case None => Fail(ParseError)
  }

  /** The reader names an inode for exactly the links whose brackets hold a 64-bit decimal; other texts that begin like
      one are malformed, and everything else names no socket. */
  lemma ParseExactly(target: string, inode: nat)
    ensures Parse(target) == Success(Some(inode))
       <==> exists digits :: target == "socket:[" + digits + "]"
                             && ParseUnsigned(digits, 0xFFFF_FFFF_FFFF_FFFF) == Some(inode)
    ensures Parse(target) == Success(None) <==> !("socket:[" <= target)
    ensures Parse(target).Failure? ==> Parse(target).error.code == ParseError
  {
    if Parse(target) == Success(Some(inode)) {
      var digits := target[|PREFIX|..|target| - 1];
      assert target == "socket:[" + digits + "]";
    }
    if digits :| target == "socket:[" + digits + "]" && ParseUnsigned(digits, 0xFFFF_FFFF_FFFF_FFFF) == Some(inode) {
      assert target[|PREFIX|..|target| - 1] == digits;
    }
  }

  /** Reading a printed inode gives it back, for every 64-bit value and no larger one. */
  lemma ParseInvertsPrint(inode: nat)
    ensures Parse("socket:[" + Print(inode) + "]")
         == if inode <= 0xFFFF_FFFF_FFFF_FFFF then Success(Some(inode)) else Fail(ParseError)
  {
    var target := "socket:[" + Print(inode) + "]";
    assert target[|PREFIX|..|target| - 1] == Print(inode);
    Decimal.ParseInvertsPrint(inode, MAX_UINT64);
  }
}
