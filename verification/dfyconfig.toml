# Dafny project: every module of the model.
includes = ["**/*.dfy"]
