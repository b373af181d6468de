/** The parts of a decoded video clip that the montage logic looks at. */
module Media {

  /** A length of time in seconds; clip lengths are never negative. */
  type Seconds = r: real | 0.0 <= r

  /** A clip decoded from the file `source`, showing `duration` seconds of it
      from time `start` on, at `fps` frames per second. The frames themselves
      are not part of this model. */
  datatype Clip = Clip(source: string, start: Seconds, duration: Seconds, fps: int)

  /** `clip.subclip(tStart, tEnd)` for bounds inside the clip: the part of
      the clip from `tStart` to `tEnd`, at the same frame rate. */
  function Subclip(c: Clip, tStart: Seconds, tEnd: Seconds): (s: Clip)
    requires tStart <= tEnd <= c.duration
    ensures s.duration == tEnd - tStart && s.fps == c.fps && s.source == c.source
    ensures s.start == c.start + tStart
  {
    c.(start := c.start + tStart, duration := tEnd - tStart)
  }
}
