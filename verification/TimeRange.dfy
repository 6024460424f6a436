/**
 The pair of timestamps both window iterators hand out. The class that
 implements it in the time-series file library is not part of this model; it
 is a plain value here, with no check that `min <= max` (the pre-aggregation
 iterator builds pairs with `min >= max` when it traverses in descending order).
 */
module TimeRanges {

  datatype TimeRange = TimeRange(min: int, max: int)

}
