/** Player kinematics: the velocity of the tick added to the position, clamped per axis. */
module Kinematics {
  import opened Config

  /** `Math.max(lo, Math.min(hi, v))`: when the bounds cross, the lower one wins. */
  function Clamp(v: int, lo: int, hi: int): (r: int)
    ensures r >= lo
    ensures lo <= hi ==> r <= hi
    ensures lo <= v <= hi ==> r == v
    ensures v < lo || hi < lo ==> r == lo
    ensures lo <= hi < v ==> r == hi
  {
    var m := if hi < v then hi else v;
    if lo > m then lo else m
  }

  /** The position after one tick on a viewport of the given size. */
  function Move(p: Vec, v: Vec, width: int, height: int): (q: Vec)
    ensures q.x >= MinPos && q.y >= MinPos
    ensures width - PlayerWidth >= MinPos ==> q.x <= width - PlayerWidth
    ensures height - PlayerHeight >= MinPos ==> q.y <= height - PlayerHeight
    ensures MinPos <= p.x + v.x <= width - PlayerWidth ==> q.x == p.x + v.x
    ensures MinPos <= p.y + v.y <= height - PlayerHeight ==> q.y == p.y + v.y
  {
    Vec(Clamp(p.x + v.x, MinPos, width - PlayerWidth),
        Clamp(p.y + v.y, MinPos, height - PlayerHeight))
  }

  /** Each axis is clamped on its own: the new x ignores y, the velocity's y and the height. */
  lemma AxesIndependent(p: Vec, v: Vec, p': Vec, v': Vec, width: int, height: int, height': int)
    requires p.x == p'.x && v.x == v'.x
    ensures Move(p, v, width, height).x == Move(p', v', width, height').x
  {
  }
}
