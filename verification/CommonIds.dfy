/** Ids that are in use at none of several processes. */
module CommonIds {

  ghost predicate CommonFree(used: set<set<nat>>, g: nat) { forall ids :: ids in used ==> g !in ids }

  ghost predicate IsLeastCommonFree(used: set<set<nat>>, g: nat) {
    CommonFree(used, g) && forall h :: 0 <= h < g ==> !CommonFree(used, h)
  }
}
