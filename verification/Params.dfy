/** Sizes several layers share (kernel/param.h, kernel/fs.h). */
module Params {
  const BSIZE := 1024
  const MAXOPBLOCKS := 10
}
