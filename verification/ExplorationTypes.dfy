/** Types that the parts of the exploration share (forge_explore/state.ts). */
module ExplorationTypes {
  datatype Hypothesis = Hypothesis(
    statement: string,
    confidence: real,
    supporting: seq<string>,
    contradicting: seq<string>)
}
